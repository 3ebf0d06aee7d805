/**
 * What each avatar request of the machine does when no other falls between its steps: what the method of
 * AvatarService does when nobody writes meanwhile.
 */
module LoneAvatarRequests {
  import opened AccountPurge
  import opened Avatar
  import opened Outcomes

  /** The name of the user's own object in the column, if there is one. */
  ghost predicate IsOwnImage(user: string, row: Row, name: string) {
    row == Some(Some(name)) && "users/" + user + "/avatar/" <= name
  }

  ghost predicate SameData(s: State, t: State) { t.row == s.row && t.bucket == s.bucket && t.logged == s.logged }

  /** One object was given up: it is gone, or in the log. */
  ghost predicate GivesUp(bucket: set<string>, logged: set<string>, t: State, name: string, fails: bool) {
    if fails then t.bucket == bucket && t.logged == logged + {name}
    else t.bucket == bucket - {name} && t.logged == logged
  }

  /** The delete that a request still owes. */
  function Settled(s: State, i: nat, fails: bool): State
    requires i < |s.requests|
  {
    if s.requests[i].Deleting? then AfterDelete(s, i, !fails) else s
  }

  function UploadAlone(user: string, s: State, i: nat, name: string, faults: Faults): State
    requires i < |s.requests| && s.requests[i].Uploading?
  {
    var read := AfterRead(user, s, i, name);
    if read.requests[i].Done? then read
    else
      var stored := AfterStore(read, i, !faults.store);
      if stored.requests[i].Done? then stored
      else Settled(AfterSwap(user, stored, i, !faults.swap), i, faults.delete)
  }

  lemma {:induction false} UploadAloneIsUpload(user: string, s: State, i: nat, name: string, faults: Faults)
    requires i < |s.requests| && s.requests[i].Uploading? && s.row != Some(Some(name))
    ensures var t := UploadAlone(user, s, i, name, faults);
            t.requests == s.requests[i := t.requests[i]] &&
            if s.row.None? then t.requests[i] == Done(NotFound) && SameData(s, t)
            else if faults.store then t.requests[i] == Done(Failed) && SameData(s, t)
            else if faults.swap then
              t.requests[i] == Done(Failed) && t.row == s.row
              && GivesUp(s.bucket + {name}, s.logged, t, name, faults.delete)
            else
              && t.requests[i] == Done(Uploaded(name)) && t.row == Some(Some(name))
              && (forall own :: IsOwnImage(user, s.row, own) ==>
                    GivesUp(s.bucket + {name}, s.logged, t, own, faults.delete))
              && ((forall own :: !IsOwnImage(user, s.row, own)) ==>
                    t.bucket == s.bucket + {name} && t.logged == s.logged)
  {
    if s.row.Some? && s.row.value.Some? {
      var own := s.row.value.value;
      assert IsOwnImage(user, s.row, own) <==> OwnAvatar(user, s.row.value).Some?;
    }
  }

  function RemoveAlone(user: string, s: State, i: nat, faults: Faults): State
    requires i < |s.requests| && s.requests[i].Removing?
  {
    var read := AfterRead(user, s, i, "");
    if read.requests[i].Done? then read
    else Settled(AfterClear(user, read, i, !faults.swap), i, faults.delete)
  }

  lemma {:induction false} RemoveAloneIsRemove(user: string, s: State, i: nat, faults: Faults)
    requires i < |s.requests| && s.requests[i].Removing?
    ensures var t := RemoveAlone(user, s, i, faults);
            t.requests == s.requests[i := t.requests[i]] &&
            if s.row.None? then t.requests[i] == Done(NotFound) && SameData(s, t)
            else if s.row.value.None? then t.requests[i] == Done(NoAvatar) && SameData(s, t)
            else if faults.swap then t.requests[i] == Done(Failed) && SameData(s, t)
            else
              && t.requests[i] == Done(Removed) && t.row == Some(None)
              && (forall own :: IsOwnImage(user, s.row, own) ==>
                    GivesUp(s.bucket, s.logged, t, own, faults.delete))
              && ((forall own :: !IsOwnImage(user, s.row, own)) ==> t.bucket == s.bucket && t.logged == s.logged)
  {
    if s.row.Some? && s.row.value.Some? {
      var own := s.row.value.value;
      assert IsOwnImage(user, s.row, own) <==> Own(user, own);
    }
  }

  /** Deleting the account takes the row and owes the delete of the user's own object, and of no other. */
  lemma {:induction false} DeleteAccountIsExact(user: string, s: State, name: string)
    requires s.row.Some?
    ensures var t := Apply(user, s, DeleteAccount);
            && t.row == None && t.bucket == s.bucket && t.logged == s.logged
            && (IsOwnImage(user, s.row, name) ==> t.requests == s.requests + [Deleting(name, Removed)])
            && ((forall own :: !IsOwnImage(user, s.row, own)) ==> t.requests == s.requests)
  {
    if s.row.value.Some? {
      var own := s.row.value.value;
      assert IsOwnImage(user, s.row, own) <==> OwnAvatar(user, s.row.value).Some?;
    }
  }

  /** getUrl signs the user's own image, and nothing else. */
  lemma {:induction false} GetAloneIsGetUrl(user: string, s: State, i: nat, name: string)
    requires i < |s.requests| && s.requests[i].Getting?
    ensures var t := AfterRead(user, s, i, "");
            && SameData(s, t)
            && (s.row.None? ==> t.requests[i] == Done(NotFound))
            && (IsOwnImage(user, s.row, name) ==> t.requests[i] == Done(Signed(name)))
            && (s.row.Some? && (forall own :: !IsOwnImage(user, s.row, own)) ==> t.requests[i] == Done(NoAvatar))
  {
    if s.row.Some? && s.row.value.Some? {
      var own := s.row.value.value;
      assert IsOwnImage(user, s.row, own) <==> OwnAvatar(user, s.row.value).Some?;
    }
  }
}
