/**
 * The lifecycle transition engine of `_verify_and_update_lb_state`: given a
 * record, its control directives, the current time and whether the caller is
 * allowed to start a new transition (`setState`), the next record and
 * directives, or the garbage collection of a DELETED record.
 */
module Lifecycle {
  import opened LbTypes

  /** The per-record control directives, folded from the creation metadata. */
  type Directives = map<string, Value>

  const BuildKey := "lb_building"
  const PendingUpdateKey := "lb_pending_update"
  const PendingDeleteKey := "lb_pending_delete"
  const ErrorKey := "lb_error_state"

  /** The duration stored back for a BUILD or PENDING-DELETE directive whose value is falsy. */
  const DefaultDuration := 10
  /** How long a DELETED record is kept before it is dropped from the store. */
  const DeletedRetention := 3600

  /**
   * The clock helper `set_resource_status(updated, secs, target)`, whose body is
   * not part of this model: it yields `target` once `secs` seconds have passed
   * since `updated`, and nothing before. A duration that is not a number is
   * taken never to pass.
   */
  predicate Elapsed(updated: int, secs: Value, now: int) {
    secs.Num? && now - updated >= secs.n
  }

  /** The directives a record's status reads unconditionally are present. */
  predicate Ready(rec: LoadBalancer, dirs: Directives) {
    && (rec.status == Build ==> BuildKey in dirs)
    && (rec.status == PendingDelete ==> PendingDeleteKey in dirs)
  }

  datatype Refreshed = Kept(rec: LoadBalancer, dirs: Directives) | Collected

  /** The status an ACTIVE record moves to under a side-effecting refresh. */
  function TriggeredStatus(dirs: Directives): Status {
    if ErrorKey in dirs then Error
    else if PendingDeleteKey in dirs then PendingDelete
    else if PendingUpdateKey in dirs then PendingUpdate
    else Active
  }

  /** One refresh of one record. */
  function Advance(rec: LoadBalancer, dirs: Directives, now: int, setState: bool): (r: Refreshed)
    requires Ready(rec, dirs)
    // only a DELETED record past its retention is dropped
    ensures r.Collected? <==> rec.status == Deleted && now - rec.updated >= DeletedRetention
    // the invariant the store relies on is kept, and no directive appears or disappears
    ensures r.Kept? ==> Ready(r.rec, r.dirs) && r.dirs.Keys == dirs.Keys
    // only "status" and "updated" ever change in the record
    ensures r.Kept? ==> r.rec == rec.(status := r.rec.status, updated := r.rec.updated)
    // only the two defaulted durations are ever rewritten
    ensures r.Kept? ==> forall k :: k in dirs && k != BuildKey && k != PendingDeleteKey ==> r.dirs[k] == dirs[k]
    // nothing enters BUILD
    ensures r.Kept? && r.rec.status == Build ==> rec.status == Build
    // a read-only refresh only lets timers run out: it never starts a transition
    ensures r.Kept? && !setState && r.rec.status != rec.status ==> r.rec.status == Active || r.rec.status == Deleted
    ensures r.Kept? && !setState && r.rec.status == Active ==> rec.status != PendingDelete
  {
    match rec.status
    case Build =>
      var d := Or(dirs[BuildKey], Num(DefaultDuration));
      Kept(rec.(status := if Elapsed(rec.updated, d, now) then Active else Build), dirs[BuildKey := d])
    case Active =>
      if setState then Kept(rec.(status := TriggeredStatus(dirs), updated := now), dirs)
      else Kept(rec, dirs)
    case PendingUpdate =>
      if PendingUpdateKey in dirs && Elapsed(rec.updated, dirs[PendingUpdateKey], now)
      then Kept(rec.(status := Active), dirs)
      else Kept(rec, dirs)
    case PendingDelete =>
      var d := Or(dirs[PendingDeleteKey], Num(DefaultDuration));
      var s := if Elapsed(rec.updated, d, now) then Deleted else PendingDelete;
      Kept(rec.(status := s, updated := now), dirs[PendingDeleteKey := d])
    case Deleted =>
      if Elapsed(rec.updated, Num(DeletedRetention), now) then Collected else Kept(rec, dirs)
    case Error =>
      Kept(rec, dirs)
  }

  /** BUILD ages on every refresh, side-effecting or not, and never moves `updated`. */
  lemma BuildStep(rec: LoadBalancer, dirs: Directives, now: int, setState: bool)
    requires rec.status == Build && BuildKey in dirs
    ensures var r := Advance(rec, dirs, now, setState);
      && r == Advance(rec, dirs, now, !setState)
      && r.Kept?
      && r.rec.updated == rec.updated
      && r.dirs[BuildKey].Truthy()
      && (dirs[BuildKey].Truthy() ==> r.dirs[BuildKey] == dirs[BuildKey])
      && (!dirs[BuildKey].Truthy() ==> r.dirs[BuildKey] == Num(DefaultDuration))
      && (r.rec.status == Active <==> Elapsed(rec.updated, r.dirs[BuildKey], now))
      && (r.rec.status != Active ==> r.rec.status == Build)
  {
  }

  /**
   * ACTIVE: a read changes nothing; a side-effecting refresh resets `updated`
   * and moves to ERROR, else PENDING-DELETE, else PENDING-UPDATE, else stays.
   */
  lemma ActiveStep(rec: LoadBalancer, dirs: Directives, now: int, setState: bool)
    requires rec.status == Active
    ensures var r := Advance(rec, dirs, now, setState);
      && r.Kept? && r.dirs == dirs
      && (!setState ==> r.rec == rec)
      && (setState ==> r.rec.updated == now)
      && (setState && ErrorKey in dirs ==> r.rec.status == Error)
      && (setState && ErrorKey !in dirs && PendingDeleteKey in dirs ==> r.rec.status == PendingDelete)
      && (setState && ErrorKey !in dirs && PendingDeleteKey !in dirs && PendingUpdateKey in dirs ==> r.rec.status == PendingUpdate)
      && (setState && ErrorKey !in dirs && PendingDeleteKey !in dirs && PendingUpdateKey !in dirs ==> r.rec.status == Active)
  {
  }

  /** PENDING-UPDATE returns to ACTIVE only when its directive is present and its time is up. */
  lemma PendingUpdateStep(rec: LoadBalancer, dirs: Directives, now: int, setState: bool)
    requires rec.status == PendingUpdate
    ensures var r := Advance(rec, dirs, now, setState);
      && r.Kept? && r.dirs == dirs && r.rec.updated == rec.updated
      && (r.rec.status == Active <==> PendingUpdateKey in dirs && Elapsed(rec.updated, dirs[PendingUpdateKey], now))
      && (r.rec.status != Active ==> r.rec == rec)
  {
  }

  /** PENDING-DELETE becomes DELETED once its (defaulted) duration is up; every refresh resets `updated`. */
  lemma PendingDeleteStep(rec: LoadBalancer, dirs: Directives, now: int, setState: bool)
    requires rec.status == PendingDelete && PendingDeleteKey in dirs
    ensures var r := Advance(rec, dirs, now, setState);
      && r.Kept? && r.rec.updated == now
      && r.dirs == dirs[PendingDeleteKey := Or(dirs[PendingDeleteKey], Num(DefaultDuration))]
      && (r.rec.status == Deleted <==> Elapsed(rec.updated, r.dirs[PendingDeleteKey], now))
      && (r.rec.status != Deleted ==> r.rec.status == PendingDelete)
  {
  }

  /** DELETED is dropped once an hour has passed since `updated`; before that nothing changes. */
  lemma DeletedStep(rec: LoadBalancer, dirs: Directives, now: int, setState: bool)
    requires rec.status == Deleted
    ensures var r := Advance(rec, dirs, now, setState);
      && (r.Collected? <==> now - rec.updated >= DeletedRetention)
      && (r.Kept? ==> r == Kept(rec, dirs))
  {
  }

  /** ERROR has no transition. */
  lemma ErrorStep(rec: LoadBalancer, dirs: Directives, now: int, setState: bool)
    requires rec.status == Error
    ensures Advance(rec, dirs, now, setState) == Kept(rec, dirs)
  {
  }

  /** A caller touching the same record at each of `times`, in order. */
  function Poll(rec: LoadBalancer, dirs: Directives, times: seq<int>, setState: bool): (r: Refreshed)
    requires Ready(rec, dirs)
    decreases |times|
  {
    if times == [] then Kept(rec, dirs)
    else
      match Advance(rec, dirs, times[0], setState)
      case Collected => Collected
      case Kept(rec', dirs') => Poll(rec', dirs', times[1..], setState)
  }

  /** Polling a BUILD record before its duration is up leaves it exactly as it was. */
  lemma {:induction false} BuildHolds(rec: LoadBalancer, dirs: Directives, times: seq<int>, setState: bool, n: int)
    requires rec.status == Build && BuildKey in dirs
    requires Or(dirs[BuildKey], Num(DefaultDuration)) == Num(n)
    requires forall i :: 0 <= i < |times| ==> times[i] - rec.updated < n
    ensures var r := Poll(rec, dirs, times, setState);
      r.Kept? && r.rec == rec && BuildKey in r.dirs && Or(r.dirs[BuildKey], Num(DefaultDuration)) == Num(n)
    decreases |times|
  {
    if times != [] {
      var r := Advance(rec, dirs, times[0], setState);
      assert r == Kept(rec, dirs[BuildKey := Num(n)]);
      BuildHolds(rec, dirs[BuildKey := Num(n)], times[1..], setState, n);
    }
  }

  /**
   * A record created with `lb_building` = n stays BUILD through every poll
   * before n seconds, and the first poll at or after n seconds sees ACTIVE.
   */
  lemma {:induction false} BuildActivatesWhenDue(rec: LoadBalancer, dirs: Directives, times: seq<int>, t: int, setState: bool, n: int)
    requires rec.status == Build && BuildKey in dirs
    requires Or(dirs[BuildKey], Num(DefaultDuration)) == Num(n)
    requires forall i :: 0 <= i < |times| ==> times[i] - rec.updated < n
    ensures var r := Poll(rec, dirs, times + [t], setState);
      r.Kept? && r.rec.updated == rec.updated && (r.rec.status == Active <==> t - rec.updated >= n)
    decreases |times|
  {
    if times == [] {
      assert [t][1..] == [];
    } else {
      assert (times + [t])[0] == times[0];
      assert (times + [t])[1..] == times[1..] + [t];
      BuildActivatesWhenDue(rec, dirs[BuildKey := Num(n)], times[1..], t, setState, n);
    }
  }

  /**
   * Because every refresh of a PENDING-DELETE record resets `updated`, a record
   * polled more often than its duration never reaches DELETED.
   */
  lemma {:induction false} PendingDeleteStarves(rec: LoadBalancer, dirs: Directives, times: seq<int>, setState: bool, n: int)
    requires rec.status == PendingDelete && PendingDeleteKey in dirs
    requires Or(dirs[PendingDeleteKey], Num(DefaultDuration)) == Num(n)
    requires times != [] ==> times[0] - rec.updated < n
    requires forall i :: 0 < i < |times| ==> times[i] - times[i - 1] < n
    ensures var r := Poll(rec, dirs, times, setState);
      && r.Kept? && r.rec.status == PendingDelete
      && (times != [] ==> r.rec.updated == times[|times| - 1])
    decreases |times|
  {
    if times != [] {
      var rec' := rec.(updated := times[0]);
      assert Advance(rec, dirs, times[0], setState) == Kept(rec', dirs[PendingDeleteKey := Num(n)]);
      var rest := times[1..];
      assert forall i :: 0 < i < |rest| ==> rest[i] - rest[i - 1] < n by {
        forall i | 0 < i < |rest| ensures rest[i] - rest[i - 1] < n {
          assert rest[i] == times[i + 1] && rest[i - 1] == times[i];
        }
      }
      assert rest != [] ==> rest[0] - rec'.updated < n by {
        if rest != [] { assert rest[0] == times[1]; }
      }
      PendingDeleteStarves(rec', dirs[PendingDeleteKey := Num(n)], rest, setState, n);
    }
  }

  /**
   * The two deletion thresholds are independent: PENDING-DELETE turns DELETED
   * after its own duration, and the DELETED record is dropped only an hour after that.
   */
  lemma DeleteThresholdsIndependent(rec: LoadBalancer, dirs: Directives, t1: int, t2: int, setState: bool, n: int)
    requires rec.status == PendingDelete && PendingDeleteKey in dirs
    requires Or(dirs[PendingDeleteKey], Num(DefaultDuration)) == Num(n)
    requires t1 - rec.updated >= n
    ensures var r := Poll(rec, dirs, [t1], setState);
      r.Kept? && r.rec.status == Deleted && r.rec.updated == t1
    ensures Poll(rec, dirs, [t1, t2], setState).Collected? <==> t2 - t1 >= DeletedRetention
  {
    assert [t1][1..] == [];
    assert [t1, t2][1..] == [t2] && [t2][1..] == [];
  }

  /**
   * Reads never start a transition: polling an ACTIVE or ERROR record without
   * `setState` leaves record and directives as they were.
   */
  lemma {:induction false} ReadsLeaveSettled(rec: LoadBalancer, dirs: Directives, times: seq<int>)
    requires rec.status == Active || rec.status == Error
    ensures Poll(rec, dirs, times, false) == Kept(rec, dirs)
    decreases |times|
  {
    if times != [] {
      ReadsLeaveSettled(rec, dirs, times[1..]);
    }
  }
}
