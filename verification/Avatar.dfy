/**
 * AvatarService: the image column of one user's row and the avatar objects in the bucket, as a class
 * whose calls are interrupted once by other writers, and as a machine over every interleaving of
 * upload, remove, getUrl and account deletion, one awaited call a step.
 */
module Avatar {
  import opened Outcomes
  import opened AccountPurge

  /** What the caller gets: a signed URL for an object, nothing, or an exception. */
  datatype Outcome = Uploaded(name: string) | Removed | Signed(name: string) | Conflict | NotFound | NoAvatar | Failed

  predicate Own(user: string, name: string) { AvatarPrefix(user) <= name }

  /** The user's row, if there is one, holds its image column. */
  type Row = Option<Option<string>>

  /** Which of the awaited calls of one request fail. */
  datatype Faults = Faults(store: bool, swap: bool, delete: bool)

  class AvatarService {
    const user: string
    var row: Row
    var bucket: set<string>
    var logged: set<string>

    constructor (user: string, row: Row, bucket: set<string>)
      ensures this.user == user && this.row == row && this.bucket == bucket && logged == {}
    {
      this.user, this.row, this.bucket, logged := user, row, bucket, {};
    }

    /** Either the object is gone afterwards or its name is in the log. */
    method DeleteQuietly(name: string, fails: bool)
      modifies this`bucket, this`logged
      ensures bucket == if fails then old(bucket) else old(bucket) - {name}
      ensures logged == if fails then old(logged) + {name} else old(logged)
      ensures name !in bucket || name in logged
    {
      if fails {
        logged := logged + {name};
      } else {
        bucket := bucket - {name};
      }
    }

    /** updateMany where image still has the value read before: the number of rows changed. */
    method CompareAndSwap(expected: Option<string>, image: Option<string>) returns (count: nat)
      modifies this`row
      ensures count == if old(row) == Some(expected) then 1 else 0
      ensures row == if old(row) == Some(expected) then Some(image) else old(row)
    {
      count := 0;
      if row == Some(expected) {
        row := Some(image);
        count := 1;
      }
    }

    /** upload. `name` is drawn fresh, and `meanwhile` is the row as other requests have left it by the
        time of the swap. One object is given up in every case but a failed store: the new one if the
        swap does not take, and otherwise the user's own previous one. */
    method Upload(name: string, meanwhile: Row, faults: Faults) returns (outcome: Outcome)
      requires row.Some? ==> row.value != Some(name)
      modifies this
      ensures outcome == if old(row).None? then NotFound
                         else if faults.store || faults.swap then Failed
                         else if meanwhile != old(row) then Conflict
                         else Uploaded(name)
      ensures old(row).None? || faults.store ==> row == old(row) && bucket == old(bucket) && logged == old(logged)
      ensures old(row).Some? && !faults.store ==>
                var doomed := if outcome.Uploaded? then Named(OwnAvatar(user, old(row).value)) else {name};
                && row == (if outcome.Uploaded? then Some(Some(name)) else meanwhile)
                && bucket == old(bucket) + {name} - (if faults.delete then {} else doomed)
                && logged == old(logged) + if faults.delete then doomed else {}
    {
      if row.None? { return NotFound; }
      var previous := row.value;
      if faults.store { return Failed; }
      bucket := bucket + {name};
      row := meanwhile;
      if faults.swap {
        DeleteQuietly(name, faults.delete);
        return Failed;
      }
      var count := CompareAndSwap(previous, Some(name));
      if count == 0 {
        DeleteQuietly(name, faults.delete);
        return Conflict;
      }
      var previousObject := OwnAvatar(user, previous);
      if previousObject.Some? { DeleteQuietly(previousObject.value, faults.delete); }
      outcome := Uploaded(name);
    }

    /** remove: the column is cleared only if it still holds what was read, and the object read goes
        either way. */
    method Remove(meanwhile: Row, faults: Faults) returns (outcome: Outcome)
      modifies this
      ensures outcome == if old(row).None? then NotFound
                         else if old(row).value.None? then NoAvatar
                         else if faults.swap then Failed
                         else Removed
      ensures outcome == NotFound || outcome == NoAvatar ==>
                row == old(row) && bucket == old(bucket) && logged == old(logged)
      ensures outcome == Failed ==> row == meanwhile && bucket == old(bucket) && logged == old(logged)
      ensures outcome == Removed ==>
                var doomed := Named(OwnAvatar(user, old(row).value));
                && row == (if meanwhile == old(row) then Some(None) else meanwhile)
                && bucket == old(bucket) - (if faults.delete then {} else doomed)
                && logged == old(logged) + if faults.delete then doomed else {}
    {
      if row.None? { return NotFound; }
      var image := row.value;
      if image.None? { return NoAvatar; }
      row := meanwhile;
      if faults.swap { return Failed; }
      var _ := CompareAndSwap(image, None);
      var objectName := OwnAvatar(user, image);
      if objectName.Some? { DeleteQuietly(objectName.value, faults.delete); }
      outcome := Removed;
    }

    /** getUrl: a foreign value in the column counts as no avatar, and is never signed. */
    method GetUrl() returns (outcome: Outcome)
      ensures outcome.Signed? ==> row == Some(Some(outcome.name)) && Own(user, outcome.name)
      ensures outcome == NotFound <==> row.None?
      ensures outcome == NoAvatar <==> row.Some? && forall n :: row.value == Some(n) ==> !Own(user, n)
      ensures outcome.Signed? || outcome == NotFound || outcome == NoAvatar
    {
      if row.None? { return NotFound; }
      var objectName := OwnAvatar(user, row.value);
      if objectName.None? { return NoAvatar; }
      outcome := Signed(objectName.value);
    }
  }

  function Named(name: Option<string>): set<string> {
    if name.Some? then {name.value} else {}
  }

  // ----- all interleavings -----

  /** A request between two awaited calls. */
  datatype Request =
    | Uploading
    | Storing(previous: Option<string>, name: string)
    | Swapping(previous: Option<string>, name: string)
    | Removing
    | Clearing(image: string)
    | Getting
    | Deleting(name: string, outcome: Outcome)
    | Done(outcome: Outcome)

  /** The last three fields are history: every name drawn so far, every value the column has held, and
      every object it has been decided to delete. */
  datatype State = State(row: Row, bucket: set<string>, logged: set<string>, requests: seq<Request>,
                         drawn: set<string>, published: set<string>, retired: set<string>)

  /** The row is read again at each step; `ok` says whether the call of the step succeeds. */
  datatype Step =
    | Arrive(request: Request)
    | Read(i: nat, name: string)
    | Store(i: nat, ok: bool)
    | Swap(i: nat, ok: bool)
    | Clear(i: nat, ok: bool)
    | Delete(i: nat, ok: bool)
    | DeleteAccount

  predicate Enabled(s: State, step: Step) {
    match step
    case Arrive(r) => r.Uploading? || r.Removing? || r.Getting?
    case Read(i, name) =>
      && i < |s.requests|
      && (s.requests[i].Uploading? || s.requests[i].Removing? || s.requests[i].Getting?)
    case Store(i, _) => i < |s.requests| && s.requests[i].Storing?
    case Swap(i, _) => i < |s.requests| && s.requests[i].Swapping?
    case Clear(i, _) => i < |s.requests| && s.requests[i].Clearing?
    case Delete(i, _) => i < |s.requests| && s.requests[i].Deleting?
    case DeleteAccount => s.row.Some?
  }

  /** Object names are random UUIDs under the user's prefix: never drawn before, never in the column. */
  predicate Legal(user: string, s: State, step: Step) {
    && Enabled(s, step)
    && (step.Read? && s.requests[step.i].Uploading? ==>
          Own(user, step.name) && step.name !in s.drawn && step.name !in s.published)
  }

  function Becomes(s: State, i: nat, r: Request): State
    requires i < |s.requests|
  {
    s.(requests := s.requests[i := r])
  }

  /** currentImage, and what each request makes of it. */
  function AfterRead(user: string, s: State, i: nat, name: string): State
    requires Enabled(s, Read(i, name))
  {
    if s.row.None? then Becomes(s, i, Done(NotFound))
    else
      var image := s.row.value;
      match s.requests[i]
      case Uploading => Becomes(s, i, Storing(image, name)).(drawn := s.drawn + {name})
      case Removing => Becomes(s, i, if image.Some? then Clearing(image.value) else Done(NoAvatar))
      case Getting =>
        var own := OwnAvatar(user, image);
        Becomes(s, i, Done(if own.Some? then Signed(own.value) else NoAvatar))
  }

  function AfterStore(s: State, i: nat, ok: bool): State
    requires Enabled(s, Store(i, ok))
  {
    var r := s.requests[i];
    if ok then Becomes(s, i, Swapping(r.previous, r.name)).(bucket := s.bucket + {r.name})
    else Becomes(s, i, Done(Failed))
  }

  /** From here on the request owes the deletion of `name`. */
  function Owing(s: State, i: nat, name: string, outcome: Outcome): State
    requires i < |s.requests|
  {
    Becomes(s, i, Deleting(name, outcome)).(retired := s.retired + {name})
  }

  function AfterSwap(user: string, s: State, i: nat, ok: bool): State
    requires Enabled(s, Swap(i, ok))
  {
    var r := s.requests[i];
    if !ok then Owing(s, i, r.name, Failed)
    else if s.row != Some(r.previous) then Owing(s, i, r.name, Conflict)
    else
      var t := s.(row := Some(Some(r.name)), published := s.published + {r.name});
      var own := OwnAvatar(user, r.previous);
      if own.Some? then Owing(t, i, own.value, Uploaded(r.name)) else Becomes(t, i, Done(Uploaded(r.name)))
  }

  function AfterClear(user: string, s: State, i: nat, ok: bool): State
    requires Enabled(s, Clear(i, ok))
  {
    var image := s.requests[i].image;
    if !ok then Becomes(s, i, Done(Failed))
    else
      var t := if s.row == Some(Some(image)) then s.(row := Some(None)) else s;
      if Own(user, image) then Owing(t, i, image, Removed) else Becomes(t, i, Done(Removed))
  }

  function AfterDelete(s: State, i: nat, ok: bool): State
    requires Enabled(s, Delete(i, ok))
  {
    var r := s.requests[i];
    var t := Becomes(s, i, Done(r.outcome));
    if ok then t.(bucket := s.bucket - {r.name}) else t.(logged := s.logged + {r.name})
  }

  /** The account's transaction removes the row; its own avatar is deleted after the commit. */
  function AfterDeleteAccount(user: string, s: State): State
    requires s.row.Some?
  {
    var own := OwnAvatar(user, s.row.value);
    var t := s.(row := None);
    if own.None? then t
    else t.(requests := t.requests + [Deleting(own.value, Removed)], retired := t.retired + {own.value})
  }

  function Apply(user: string, s: State, step: Step): State
    requires Enabled(s, step)
  {
    match step
    case Arrive(r) => s.(requests := s.requests + [r])
    case Read(i, name) => AfterRead(user, s, i, name)
    case Store(i, ok) => AfterStore(s, i, ok)
    case Swap(i, ok) => AfterSwap(user, s, i, ok)
    case Clear(i, ok) => AfterClear(user, s, i, ok)
    case Delete(i, ok) => AfterDelete(s, i, ok)
    case DeleteAccount => AfterDeleteAccount(user, s)
  }

  ghost predicate Reaches(user: string, from: State, steps: seq<Step>, to: State)
    decreases |steps|
  {
    if steps == [] then from == to
    else Legal(user, from, steps[0]) && Reaches(user, Apply(user, from, steps[0]), steps[1..], to)
  }

  /** Any start at rest: the column is null, foreign, or names the one avatar object in the bucket. */
  ghost predicate AtStart(user: string, s: State) {
    && s.requests == [] && s.logged == {} && s.retired == {} && s.drawn == {}
    && s.published == (if s.row.Some? then Named(s.row.value) else {})
    && (forall n :: n in s.bucket && Own(user, n) ==> s.row == Some(Some(n)))
    && (forall n :: s.row == Some(Some(n)) && Own(user, n) ==> n in s.bucket)
  }

  // ----- the invariant -----

  predicate Pending(r: Request, n: string) { (r.Storing? || r.Swapping?) && r.name == n }

  predicate Owed(r: Request, n: string) { (r.Swapping? || r.Deleting?) && r.name == n }

  predicate Observed(r: Request, n: string) {
    ((r.Storing? || r.Swapping?) && r.previous == Some(n)) || (r.Clearing? && r.image == n)
  }

  predicate Current(s: State, n: string) { s.row == Some(Some(n)) }

  predicate RequestOk(user: string, s: State, r: Request) {
    && (r.Storing? || r.Swapping? ==>
        Own(user, r.name) && r.name in s.drawn && r.name !in s.published && r.name !in s.retired)
    && (r.Swapping? ==> r.name in s.bucket)
    && (r.Deleting? ==> Own(user, r.name) && r.name in s.retired)
    && ((r.Storing? || r.Swapping?) && r.previous.Some? ==> r.previous.value in s.published)
    && (r.Clearing? ==> r.image in s.published)
    && (r.Deleting? && r.outcome.Uploaded? ==> r.outcome.name in s.published)
    && (r.Done? && r.outcome.Uploaded? ==> r.outcome.name in s.published)
  }

  ghost predicate RequestsOk(user: string, s: State) {
    forall i :: 0 <= i < |s.requests| ==> RequestOk(user, s, s.requests[i])
  }

  predicate SameName(r: Request, q: Request) { (r.Storing? || r.Swapping?) && Pending(q, r.name) }

  ghost predicate NamesDistinct(s: State) {
    forall i, j :: 0 <= i < |s.requests| && 0 <= j < |s.requests| && i != j ==> !SameName(s.requests[i], s.requests[j])
  }

  /** A value the column has held is still there, was foreign, or is to be deleted. */
  ghost predicate HistoryOk(user: string, s: State) {
    && (forall n :: Current(s, n) ==> n in s.published && n !in s.retired)
    && (forall n :: n in s.published && Own(user, n) ==> Current(s, n) || n in s.retired)
    && s.logged <= s.retired
    && (forall n :: n in s.retired ==> n in s.drawn || n in s.published)
  }

  ghost predicate OwedBySome(s: State, n: string) {
    exists i :: 0 <= i < |s.requests| && Owed(s.requests[i], n)
  }

  ghost predicate Accounted(user: string, s: State) {
    && (forall n :: Current(s, n) && Own(user, n) ==> n in s.bucket)
    && (forall n :: n in s.bucket && Own(user, n) ==> Current(s, n) || n in s.logged || OwedBySome(s, n))
  }

  ghost predicate Inv(user: string, s: State) {
    RequestsOk(user, s) && NamesDistinct(s) && HistoryOk(user, s) && Accounted(user, s)
  }

  // ----- every step keeps it -----

  lemma ArriveKeepsInv(user: string, s: State, r: Request)
    requires Inv(user, s) && Legal(user, s, Arrive(r))
    ensures Inv(user, Apply(user, s, Arrive(r)))
  {
    var t := Apply(user, s, Arrive(r));
    assert RequestsOk(user, t);
    assert NamesDistinct(t);
    forall n | OwedBySome(s, n)
      ensures OwedBySome(t, n)
    {
      var i :| 0 <= i < |s.requests| && Owed(s.requests[i], n);
      assert t.requests[i] == s.requests[i];
    }
  }

  /** Nothing owed is lost when request `i` moves on, except what it owed itself. */
  lemma StillOwed(s: State, t: State, i: nat, n: string)
    requires i < |s.requests| == |t.requests| && t.requests == s.requests[i := t.requests[i]]
    requires OwedBySome(s, n) && (Owed(s.requests[i], n) ==> Owed(t.requests[i], n))
    ensures OwedBySome(t, n)
  {
    var j :| 0 <= j < |s.requests| && Owed(s.requests[j], n);
    assert Owed(t.requests[j], n);
  }

  lemma ReadKeepsInv(user: string, s: State, i: nat, name: string)
    requires Inv(user, s) && Legal(user, s, Read(i, name))
    ensures Inv(user, AfterRead(user, s, i, name))
  {
    var t := AfterRead(user, s, i, name);
    assert RequestOk(user, s, s.requests[i]);
    forall j | 0 <= j < |t.requests|
      ensures RequestOk(user, t, t.requests[j])
    {
      assert RequestOk(user, s, s.requests[j]);
    }
    forall j, k | 0 <= j < |t.requests| && 0 <= k < |t.requests| && j != k
      ensures !SameName(t.requests[j], t.requests[k])
    {
      assert RequestOk(user, s, s.requests[j]) && RequestOk(user, s, s.requests[k]);
      assert !SameName(s.requests[j], s.requests[k]);
    }
    forall n | OwedBySome(s, n)
      ensures OwedBySome(t, n)
    {
      StillOwed(s, t, i, n);
    }
  }

  lemma StoreKeepsInv(user: string, s: State, i: nat, ok: bool)
    requires Inv(user, s) && Legal(user, s, Store(i, ok))
    ensures Inv(user, AfterStore(s, i, ok))
  {
    var t := AfterStore(s, i, ok);
    assert RequestOk(user, s, s.requests[i]);
    forall j | 0 <= j < |t.requests|
      ensures RequestOk(user, t, t.requests[j])
    {
      assert RequestOk(user, s, s.requests[j]);
    }
    forall j, k | 0 <= j < |t.requests| && 0 <= k < |t.requests| && j != k
      ensures !SameName(t.requests[j], t.requests[k])
    {
      assert !SameName(s.requests[j], s.requests[k]);
    }
    forall n | OwedBySome(s, n)
      ensures OwedBySome(t, n)
    {
      StillOwed(s, t, i, n);
    }
    if ok { assert Owed(t.requests[i], s.requests[i].name); }
  }

  /** Giving up a name nobody else is about to publish. */
  lemma OthersUnaffected(user: string, s: State, i: nat, j: nat)
    requires RequestsOk(user, s) && NamesDistinct(s) && i < |s.requests| && j < |s.requests| && i != j
    requires s.requests[i].Swapping?
    ensures RequestOk(user, s, s.requests[j]) && !Pending(s.requests[j], s.requests[i].name)
  {
    assert !SameName(s.requests[i], s.requests[j]);
  }

  lemma SwapKeepsRequests(user: string, s: State, i: nat, ok: bool)
    requires Inv(user, s) && Legal(user, s, Swap(i, ok))
    ensures RequestsOk(user, AfterSwap(user, s, i, ok)) && NamesDistinct(AfterSwap(user, s, i, ok))
  {
    var t := AfterSwap(user, s, i, ok);
    assert RequestOk(user, s, s.requests[i]);
    forall j | 0 <= j < |t.requests|
      ensures RequestOk(user, t, t.requests[j])
    {
      if j != i { OthersUnaffected(user, s, i, j); }
    }
    forall j, k | 0 <= j < |t.requests| && 0 <= k < |t.requests| && j != k
      ensures !SameName(t.requests[j], t.requests[k])
    {
      assert !SameName(s.requests[j], s.requests[k]);
    }
  }

  lemma SwapKeepsInv(user: string, s: State, i: nat, ok: bool)
    requires Inv(user, s) && Legal(user, s, Swap(i, ok))
    ensures Inv(user, AfterSwap(user, s, i, ok))
  {
    var t := AfterSwap(user, s, i, ok);
    SwapKeepsRequests(user, s, i, ok);
    var r := s.requests[i];
    assert RequestOk(user, s, r);
    forall n | n in t.bucket && Own(user, n) && !Current(t, n) && n !in t.logged
      ensures OwedBySome(t, n)
    {
      if Current(s, n) || n == r.name {
        assert Owed(t.requests[i], n);
      } else {
        StillOwed(s, t, i, n);
      }
    }
  }

  lemma ClearKeepsInv(user: string, s: State, i: nat, ok: bool)
    requires Inv(user, s) && Legal(user, s, Clear(i, ok))
    ensures Inv(user, AfterClear(user, s, i, ok))
  {
    var t := AfterClear(user, s, i, ok);
    var image := s.requests[i].image;
    assert RequestOk(user, s, s.requests[i]);
    forall j | 0 <= j < |t.requests|
      ensures RequestOk(user, t, t.requests[j])
    {
      assert RequestOk(user, s, s.requests[j]);
    }
    forall j, k | 0 <= j < |t.requests| && 0 <= k < |t.requests| && j != k
      ensures !SameName(t.requests[j], t.requests[k])
    {
      assert !SameName(s.requests[j], s.requests[k]);
    }
    forall n | n in t.bucket && Own(user, n) && !Current(t, n) && n !in t.logged
      ensures OwedBySome(t, n)
    {
      if Current(s, n) {
        assert Owed(t.requests[i], n);
      } else {
        StillOwed(s, t, i, n);
      }
    }
  }

  lemma DeleteKeepsInv(user: string, s: State, i: nat, ok: bool)
    requires Inv(user, s) && Legal(user, s, Delete(i, ok))
    ensures Inv(user, AfterDelete(s, i, ok))
  {
    var t := AfterDelete(s, i, ok);
    assert RequestOk(user, s, s.requests[i]);
    forall j | 0 <= j < |t.requests|
      ensures RequestOk(user, t, t.requests[j])
    {
      assert RequestOk(user, s, s.requests[j]);
    }
    forall j, k | 0 <= j < |t.requests| && 0 <= k < |t.requests| && j != k
      ensures !SameName(t.requests[j], t.requests[k])
    {
      assert !SameName(s.requests[j], s.requests[k]);
    }
    forall n | n in t.bucket && Own(user, n) && !Current(t, n) && n !in t.logged
      ensures OwedBySome(t, n)
    {
      StillOwed(s, t, i, n);
    }
  }

  lemma DeleteAccountKeepsInv(user: string, s: State)
    requires Inv(user, s) && s.row.Some?
    ensures Inv(user, AfterDeleteAccount(user, s))
  {
    var t := AfterDeleteAccount(user, s);
    forall j | 0 <= j < |t.requests|
      ensures RequestOk(user, t, t.requests[j])
    {
      if j < |s.requests| { assert RequestOk(user, s, s.requests[j]); }
    }
    assert NamesDistinct(t) by {
      forall j, k | 0 <= j < |t.requests| && 0 <= k < |t.requests| && j != k
        ensures !SameName(t.requests[j], t.requests[k])
      {
        if j < |s.requests| && k < |s.requests| { assert !SameName(s.requests[j], s.requests[k]); }
      }
    }
    forall n | n in t.bucket && Own(user, n) && !Current(t, n) && n !in t.logged
      ensures OwedBySome(t, n)
    {
      if Current(s, n) {
        assert Owed(t.requests[|s.requests|], n);
      } else {
        var j :| 0 <= j < |s.requests| && Owed(s.requests[j], n);
        assert t.requests[j] == s.requests[j];
      }
    }
  }

  lemma StepKeepsInv(user: string, s: State, step: Step)
    requires Inv(user, s) && Legal(user, s, step)
    ensures Inv(user, Apply(user, s, step))
  {
    hide Inv, AfterRead, AfterStore, AfterSwap, AfterClear, AfterDelete, AfterDeleteAccount;
    match step
    case Arrive(r) => ArriveKeepsInv(user, s, r);
    case Read(i, name) => ReadKeepsInv(user, s, i, name);
    case Store(i, ok) => StoreKeepsInv(user, s, i, ok);
    case Swap(i, ok) => SwapKeepsInv(user, s, i, ok);
    case Clear(i, ok) => ClearKeepsInv(user, s, i, ok);
    case Delete(i, ok) => DeleteKeepsInv(user, s, i, ok);
    case DeleteAccount => DeleteAccountKeepsInv(user, s);
  }

  lemma {:induction false} RunKeepsInv(user: string, from: State, steps: seq<Step>, to: State)
    requires Inv(user, from) && Reaches(user, from, steps, to)
    ensures Inv(user, to)
    decreases |steps|
  {
    if steps != [] {
      StepKeepsInv(user, from, steps[0]);
      RunKeepsInv(user, Apply(user, from, steps[0]), steps[1..], to);
    }
  }

  lemma StartInv(user: string, s: State)
    requires AtStart(user, s)
    ensures Inv(user, s)
  {
  }

  // ----- what every run guarantees -----

  /** The column never names a missing avatar, and no avatar object is forgotten: each is the current
      image, still owed a publish or a delete by a request in flight, or logged as orphaned. */
  lemma {:induction false} AvatarConservation(user: string, from: State, steps: seq<Step>, to: State)
    requires AtStart(user, from) && Reaches(user, from, steps, to)
    ensures Accounted(user, to)
  {
    StartInv(user, from);
    RunKeepsInv(user, from, steps, to);
  }

  ghost predicate AtRest(s: State) { forall i :: 0 <= i < |s.requests| ==> s.requests[i].Done? }

  /** At rest, the avatar objects in the bucket are the current one and logged orphans; with an empty
      log, exactly the current one. */
  lemma {:induction false} RestingBucketIsExact(user: string, from: State, steps: seq<Step>, to: State, n: string)
    requires AtStart(user, from) && Reaches(user, from, steps, to) && AtRest(to) && Own(user, n)
    ensures n in to.bucket ==> Current(to, n) || n in to.logged
    ensures Current(to, n) ==> n in to.bucket && n !in to.logged
    ensures to.logged == {} ==> (n in to.bucket <==> Current(to, n))
  {
    StartInv(user, from);
    RunKeepsInv(user, from, steps, to);
    assert !OwedBySome(to, n);
  }

  ghost predicate NoDeleteFails(steps: seq<Step>) { forall k :: 0 <= k < |steps| && steps[k].Delete? ==> steps[k].ok }

  lemma {:induction false} NothingLogged(user: string, from: State, steps: seq<Step>, to: State)
    requires Reaches(user, from, steps, to) && NoDeleteFails(steps)
    ensures to.logged == from.logged
    decreases |steps|
  {
    if steps != [] {
      assert NoDeleteFails(steps[1..]);
      NothingLogged(user, Apply(user, from, steps[0]), steps[1..], to);
    }
  }

  /** With no failed delete, even if uploads and database writes fail, resting means: exactly the
      current avatar. */
  lemma {:induction false} WithoutFailedDeletes(user: string, from: State, steps: seq<Step>, to: State, n: string)
    requires AtStart(user, from) && Reaches(user, from, steps, to) && AtRest(to) && Own(user, n)
    requires NoDeleteFails(steps)
    ensures n in to.bucket <==> Current(to, n)
  {
    NothingLogged(user, from, steps, to);
    RestingBucketIsExact(user, from, steps, to, n);
  }

  /** What getUrl signs is in the bucket when it is read, and an upload that reports success was
      published. */
  lemma {:induction false} AnswersAreReal(user: string, from: State, steps: seq<Step>, s: State, i: nat)
    requires AtStart(user, from) && Reaches(user, from, steps, s) && i < |s.requests|
    ensures s.requests[i].Getting? ==>
              var r := AfterRead(user, s, i, "").requests[i];
              r.Done? && (r.outcome.Signed? ==> r.outcome.name in s.bucket)
    ensures s.requests[i].Done? && s.requests[i].outcome.Uploaded? ==> s.requests[i].outcome.name in s.published
  {
    StartInv(user, from);
    RunKeepsInv(user, from, steps, s);
    assert RequestOk(user, s, s.requests[i]);
  }

  /** No delete ever reaches the current avatar. */
  lemma {:induction false} CurrentIsNeverDeleted(user: string, from: State, steps: seq<Step>, s: State, i: nat)
    requires AtStart(user, from) && Reaches(user, from, steps, s)
    requires i < |s.requests| && s.requests[i].Deleting?
    ensures !Current(s, s.requests[i].name)
  {
    StartInv(user, from);
    RunKeepsInv(user, from, steps, s);
    assert RequestOk(user, s, s.requests[i]);
  }

  /** The protocol trusts a failed write not to have happened: if the swap commits but its answer is
      lost, the cleanup deletes the object the column now names. */
  function SwapAnswerLost(s: State, i: nat): State
    requires Enabled(s, Swap(i, false))
  {
    var r := s.requests[i];
    Owing(s.(row := Some(Some(r.name)), published := s.published + {r.name}), i, r.name, Failed)
  }

  lemma {:induction false} LostAnswerLosesAvatar(user: string, s: State, i: nat)
    requires Inv(user, s) && Enabled(s, Swap(i, false)) && s.row == Some(s.requests[i].previous)
    ensures var t := AfterDelete(SwapAnswerLost(s, i), i, true); var n := s.requests[i].name;
            Own(user, n) && Current(t, n) && n !in t.bucket
  {
    assert RequestOk(user, s, s.requests[i]);
  }

  /** If the answer of request `i`'s swap is lost, the column names `name`, the user's own and gone. */
  ghost predicate WouldLose(user: string, s: State, i: nat, name: string) {
    && Enabled(s, Swap(i, false))
    && var t := AfterDelete(SwapAnswerLost(s, i), i, true);
       Own(user, name) && Current(t, name) && name !in t.bucket
  }

  /** Every user can get there, with a single upload. */
  lemma {:induction false} LostAnswerIsReachable(user: string, from: State, name: string)
    requires AtStart(user, from) && from.row.Some? && Own(user, name) && name !in from.published
    ensures exists steps, s :: Reaches(user, from, steps, s) && WouldLose(user, s, 0, name)
  {
    var arrive, read, store := Arrive(Uploading), Read(0, name), Store(0, true);
    var s1 := Apply(user, from, arrive);
    var s2 := Apply(user, s1, read);
    var s3 := Apply(user, s2, store);
    assert Reaches(user, s3, [], s3);
    assert [store][1..] == [] && Reaches(user, s2, [store], s3);
    assert [read, store][1..] == [store] && Reaches(user, s1, [read, store], s3);
    assert [arrive, read, store][1..] == [read, store] && Reaches(user, from, [arrive, read, store], s3);
    StartInv(user, from);
    RunKeepsInv(user, from, [arrive, read, store], s3);
    assert s3.requests[0] == Swapping(from.row.value, name);
    LostAnswerLosesAvatar(user, s3, 0);
    assert WouldLose(user, s3, 0, name);
  }
}
