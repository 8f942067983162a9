/** The polling directory monitor: each successful poll reports how the snapshot changed. */
module FileMonitor {
  import opened Wrappers

  type Path = string
  type Time = int
  type Snapshot = map<Path, Time>

  datatype Event = Created(path: Path) | Modified(path: Path) | Removed(path: Path)

  // ---------- replaying events ----------

  function Replay(paths: set<Path>, e: Event): set<Path> {
    match e
    case Created(p) => paths + {p}
    case Modified(_) => paths
    case Removed(p) => paths - {p}
  }

  /** A creation of a path that is absent, or a change or removal of one that is present. */
  predicate Legal(paths: set<Path>, e: Event) {
    match e
    case Created(p) => p !in paths
    case Modified(p) => p in paths
    case Removed(p) => p in paths
  }

  function ReplayAll(paths: set<Path>, es: seq<Event>): set<Path> {
    if es == [] then paths else Replay(ReplayAll(paths, es[..|es| - 1]), es[|es| - 1])
  }

  predicate LegalAll(paths: set<Path>, es: seq<Event>) {
    es == [] || (LegalAll(paths, es[..|es| - 1]) && Legal(ReplayAll(paths, es[..|es| - 1]), es[|es| - 1]))
  }

  lemma {:induction false} ReplayConcat(paths: set<Path>, es: seq<Event>, fs: seq<Event>)
    ensures ReplayAll(paths, es + fs) == ReplayAll(ReplayAll(paths, es), fs)
    ensures LegalAll(paths, es) && LegalAll(ReplayAll(paths, es), fs) ==> LegalAll(paths, es + fs)
    decreases |fs|
  {
    if fs == [] {
      assert es + fs == es;
    } else {
      ReplayConcat(paths, es, fs[..|fs| - 1]);
      assert (es + fs)[..|es + fs| - 1] == es + fs[..|fs| - 1];
    }
  }

  // ---------- one poll ----------

  /** The events a change of snapshot calls for, each exactly once and no others. */
  ghost predicate Reports(es: seq<Event>, before: Snapshot, after: Snapshot) {
    && (forall i, j :: 0 <= i < j < |es| ==> es[i].path != es[j].path)
    && (forall p :: Created(p) in es <==> p in after && p !in before)
    && (forall p :: Modified(p) in es <==> p in after && p in before && before[p] != after[p])
    && (forall p :: Removed(p) in es <==> p in before && p !in after)
  }

  predicate Names(es: seq<Event>, p: Path) {
    exists i :: 0 <= i < |es| && es[i].path == p
  }

  lemma OnlyLastNames(es: seq<Event>, n: nat)
    requires 0 < n <= |es| && forall i :: 0 <= i < n - 1 ==> es[i].path != es[n - 1].path
    ensures !Names(es[..n - 1], es[n - 1].path)
  {
  }

  /** How far a replay of some of a poll's events has got with one path: as in the new snapshot
      if some event named it, else as in the old. */
  lemma {:induction false} PathReplays(es: seq<Event>, before: Snapshot, after: Snapshot, n: nat, p: Path)
    requires Reports(es, before, after) && n <= |es|
    ensures p in ReplayAll(before.Keys, es[..n]) <==> if Names(es[..n], p) then p in after else p in before
  {
    if n > 0 {
      var e, front := es[n - 1], es[..n - 1];
      PathReplays(es, before, after, n - 1, p);
      assert es[..n][..n - 1] == front && es[..n][n - 1] == e;
      assert e in es;
      if p == e.path {
        assert Names(es[..n], p);
        OnlyLastNames(es, n);
      } else {
        NamesOfFront(es, n, p);
      }
    }
  }

  lemma NamesOfFront(es: seq<Event>, n: nat, p: Path)
    requires 0 < n <= |es| && es[n - 1].path != p
    ensures Names(es[..n], p) <==> Names(es[..n - 1], p)
  {
  }

  lemma {:induction false} PollIsLegal(es: seq<Event>, before: Snapshot, after: Snapshot, n: nat)
    requires Reports(es, before, after) && n <= |es|
    ensures LegalAll(before.Keys, es[..n])
  {
    if n > 0 {
      var e, front := es[n - 1], es[..n - 1];
      PollIsLegal(es, before, after, n - 1);
      PathReplays(es, before, after, n - 1, e.path);
      assert es[..n][..n - 1] == front && es[..n][n - 1] == e;
      assert forall i :: 0 <= i < n - 1 ==> front[i] == es[i] && es[i].path != es[n - 1].path;
      assert !Names(front, e.path);
      assert e in es;
    }
  }

  /** Replaying a poll's events over the old paths is legal and gives the new paths. */
  lemma PollReplays(es: seq<Event>, before: Snapshot, after: Snapshot)
    requires Reports(es, before, after)
    ensures LegalAll(before.Keys, es) && ReplayAll(before.Keys, es) == after.Keys
  {
    assert es[..|es|] == es;
    PollIsLegal(es, before, after, |es|);
    forall p ensures p in ReplayAll(before.Keys, es) <==> p in after.Keys {
      PathReplays(es, before, after, |es|, p);
      if p in after && p !in before {
        var i :| 0 <= i < |es| && es[i] == Created(p);
        assert Names(es, p);
      } else if p in before && p !in after {
        var i :| 0 <= i < |es| && es[i] == Removed(p);
        assert Names(es, p);
      }
    }
  }

  // ---------- alternation ----------

  predicate IsFlip(e: Event, p: Path) {
    e == Created(p) || e == Removed(p)
  }

  lemma {:induction false} PresenceHolds(paths: set<Path>, es: seq<Event>, p: Path, i: nat, j: nat)
    requires i <= j <= |es| && forall k :: i <= k < j ==> !IsFlip(es[k], p)
    ensures p in ReplayAll(paths, es[..j]) <==> p in ReplayAll(paths, es[..i])
    decreases j
  {
    if i < j {
      PresenceHolds(paths, es, p, i, j - 1);
      assert es[..j][..j - 1] == es[..j - 1];
    }
  }

  lemma {:induction false} LegalPrefix(paths: set<Path>, es: seq<Event>, n: nat)
    requires LegalAll(paths, es) && n <= |es|
    ensures LegalAll(paths, es[..n])
    decreases |es|
  {
    if n == |es| {
      assert es[..n] == es;
    } else {
      LegalPrefix(paths, es[..|es| - 1], n);
      assert es[..|es| - 1][..n] == es[..n];
    }
  }

  /** In any legal event sequence, two neighbouring creations or removals of one path differ in
      kind: its events strictly alternate. */
  lemma FlipsAlternate(paths: set<Path>, es: seq<Event>, p: Path, i: nat, j: nat)
    requires LegalAll(paths, es) && i < j < |es| && IsFlip(es[i], p) && IsFlip(es[j], p)
    requires forall k :: i < k < j ==> !IsFlip(es[k], p)
    ensures es[i] != es[j]
  {
    LegalPrefix(paths, es, j + 1);
    assert es[..j + 1][..j] == es[..j];
    PresenceHolds(paths, es, p, i + 1, j);
    assert es[..i + 1][..i] == es[..i];
    assert p in ReplayAll(paths, es[..i + 1]) <==> es[i] == Created(p);
  }

  // ---------- the monitor ----------

  class FileSystemMonitor {
    var snapshot: Snapshot
    const hasCallback: bool
    ghost var initial: Snapshot
    var events: seq<Event>

    /** With a callback, what it received so far replays the initial paths to the current ones. */
    ghost predicate Valid()
      reads this
    {
      hasCallback ==> LegalAll(initial.Keys, events) && ReplayAll(initial.Keys, events) == snapshot.Keys
    }

    constructor (first: Snapshot, hasCallback: bool)
      ensures Valid() && snapshot == initial == first && events == [] && this.hasCallback == hasCallback
    {
      snapshot, initial, events := first, first, [];
      this.hasCallback := hasCallback;
    }

    /** The events of one poll, in whatever order the two hash tables iterate. */
    static method Diff(before: Snapshot, after: Snapshot) returns (es: seq<Event>)
      ensures Reports(es, before, after)
    {
      es := [];
      var left := after.Keys;
      while left != {}
        invariant left <= after.Keys
        invariant forall i, j :: 0 <= i < j < |es| ==> es[i].path != es[j].path
        invariant forall i :: 0 <= i < |es| ==> es[i].path in after && es[i].path !in left
        invariant forall p :: Created(p) in es <==> p in after && p !in left && p !in before
        invariant forall p :: Modified(p) in es <==> p in after && p !in left && p in before && before[p] != after[p]
        invariant forall p :: Removed(p) !in es
        decreases left
      {
        var p :| p in left;
        left := left - {p};
        if p !in before {
          es := es + [Created(p)];
        } else if before[p] != after[p] {
          es := es + [Modified(p)];
        }
      }
      ghost var changes := es;
      left := before.Keys;
      while left != {}
        invariant left <= before.Keys
        invariant forall i, j :: 0 <= i < j < |es| ==> es[i].path != es[j].path
        invariant forall i :: 0 <= i < |es| ==> es[i].path in after || (es[i].path in before && es[i].path !in left)
        invariant forall p :: Created(p) in es <==> Created(p) in changes
        invariant forall p :: Modified(p) in es <==> Modified(p) in changes
        invariant forall p :: Removed(p) in es <==> p in before && p !in left && p !in after
        decreases left
      {
        var p :| p in left;
        left := left - {p};
        if p !in after {
          es := es + [Removed(p)];
        }
      }
    }

    /** One turn of the worker loop; None is a snapshot that could not be taken. */
    method Poll(current: Option<Snapshot>)
      requires Valid()
      modifies this`snapshot, this`events
      ensures Valid()
      ensures current.None? ==> snapshot == old(snapshot) && events == old(events)
      ensures current.Some? ==> snapshot == current.value && old(events) <= events
      ensures current.Some? && hasCallback ==> Reports(events[|old(events)|..], old(snapshot), snapshot)
      ensures !hasCallback ==> events == old(events)
    {
      if current.None? {
        return;
      }
      if hasCallback {
        var es := Diff(snapshot, current.value);
        PollReplays(es, snapshot, current.value);
        ReplayConcat(initial.Keys, events, es);
        events := events + es;
        assert events[|old(events)|..] == es;
      }
      snapshot := current.value;
    }

    /** A whole run of polls, successful or not: replaying everything emitted over the first
        snapshot's paths is legal throughout and ends at the last snapshot's. */
    method Run(polls: seq<Option<Snapshot>>)
      requires Valid()
      modifies this`snapshot, this`events
      ensures Valid() && snapshot == LastSnapshot(old(snapshot), polls)
      ensures hasCallback ==>
                && LegalAll(initial.Keys, events)
                && ReplayAll(initial.Keys, events) == LastSnapshot(old(snapshot), polls).Keys
    {
      for i := 0 to |polls|
        invariant Valid() && snapshot == LastSnapshot(old(snapshot), polls[..i])
      {
        assert polls[..i + 1][..i] == polls[..i];
        Poll(polls[i]);
      }
      assert polls[..|polls|] == polls;
    }
  }

  function LastSnapshot(first: Snapshot, polls: seq<Option<Snapshot>>): Snapshot {
    if polls == [] then first
    else if polls[|polls| - 1].Some? then polls[|polls| - 1].value
    else LastSnapshot(first, polls[..|polls| - 1])
  }
}
