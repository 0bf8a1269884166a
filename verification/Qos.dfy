/**
 The CAKE ownership protocol: a journal written before every change, and a reconcile
 loop that may be cut off between any two of its steps. Kernel and file operations may
 fail; a failed add or delete may still have taken effect.
 */
module Qos {
  import opened Wrappers
  import opened Bytes
  import opened QosCodec

  type Entries = map<string, (nat, Options)>

  /** The qdiscs of one interface, as far as the kernel shows them. */
  datatype Device = Device(root: Option<Qdisc>, children: set<Qdisc>)

  type Kernel = map<nat, Device>

  function At(k: Kernel, index: nat): Device { if index in k then k[index] else Device(None, {}) }

  function Cake(index: nat, o: Options): Qdisc { Qdisc(index, ROOT, HANDLE, CAKE, o) }

  predicate OwnedAt(k: Kernel, index: nat, o: Options) {
    At(k, index).root.Some? && Owned(At(k, index).root.value, index, o)
  }

  const NOQUEUE: bytes := [0x6e, 0x6f, 0x71, 0x75, 0x65, 0x75, 0x65]
  const PFIFO_FAST: bytes := [0x70, 0x66, 0x69, 0x66, 0x6f, 0x5f, 0x66, 0x61, 0x73, 0x74]
  const FQ: bytes := [0x66, 0x71]
  const FQ_CODEL: bytes := [0x66, 0x71, 0x5f, 0x63, 0x6f, 0x64, 0x65, 0x6c]
  const MQ: bytes := [0x6d, 0x71]
  const INGRESS: bytes := [0x69, 0x6e, 0x67, 0x72, 0x65, 0x73, 0x73]
  const CLSACT: bytes := [0x63, 0x6c, 0x73, 0x61, 0x63, 0x74]

  predicate Replaceable(q: Qdisc) {
    q.handle == 0 && (q.kind == NOQUEUE || q.kind == PFIFO_FAST || q.kind == FQ || q.kind == FQ_CODEL || q.kind == MQ)
  }

  predicate Beside(q: Qdisc) { q.kind == INGRESS || q.kind == CLSACT }

  predicate CustomChild(d: Device) { exists q | q in d.children :: !Beside(q) && q.handle != 0 }

  /** A device the program may put its root on: a kernel default, or nothing visible, and no custom child. */
  predicate Vacant(d: Device) { (d.root.Some? ==> Replaceable(d.root.value)) && !CustomChild(d) }

  predicate DistinctIndexes(e: Entries) { forall i, j | i in e && j in e && i != j :: e[i].0 != e[j].0 }

  /** Both hold the same entry for i. */
  predicate Same(a: Entries, b: Entries, i: string) { i in a && i in b && a[i] == b[i] }

  predicate Journaled(e: Entries, index: nat, o: Options) { exists i :: i in e && e[i] == (index, o) }

  datatype Ending = Done | Failed | Cut

  predicate Default(d: Device) { d.root.Some? ==> d.root.value.handle == 0 }

  // ------------------------------------------------------------- specification

  /** Kernel, journal, and the roots this program installed that nobody changed since. */
  datatype State = State(kernel: Kernel, journal: Entries, mine: map<nat, Options>)

  /** Every root of ours is still in the kernel and named by the journal, with its exact index and options. */
  ghost predicate Covered(s: State) {
    && DistinctIndexes(s.journal)
    && forall d | d in s.mine :: OwnedAt(s.kernel, d, s.mine[d]) && Journaled(s.journal, d, s.mine[d])
  }

  ghost predicate Entry(e: Entries, i: string, k: Kernel) { i in e && OwnedAt(k, e[i].0, e[i].1) }

  /** An entry the first half of reconcile leaves alone. */
  ghost predicate Kept(i: string, s: State, wanted: Entries) {
    Entry(s.journal, i, s.kernel) && i in wanted && wanted[i] == s.journal[i]
  }

  ghost predicate JournaledAndOwned(s: State, d: nat) {
    exists i :: Entry(s.journal, i, s.kernel) && s.journal[i].0 == d
  }

  ghost predicate WantedAt(wanted: Entries, d: nat) { exists i :: i in wanted && wanted[i].0 == d }

  /** What holds at every cut of the first half. */
  ghost predicate Releasing(was: State, s: State, wanted: Entries) {
    && Covered(s)
    && (forall i | i in s.journal :: i in was.journal && s.journal[i] == was.journal[i])
    && (forall i | Kept(i, was, wanted) ::
          i in s.journal && At(s.kernel, was.journal[i].0) == At(was.kernel, was.journal[i].0))
    && (forall d :: At(s.kernel, d) == At(was.kernel, d) || (JournaledAndOwned(was, d) && Default(At(s.kernel, d))))
    && (forall d | d in s.mine :: d in was.mine && s.mine[d] == was.mine[d])
    && (forall d | d in was.mine && d !in s.mine :: Default(At(s.kernel, d)))
    && (forall i | i in was.journal && i !in s.journal :: !OwnedAt(s.kernel, was.journal[i].0, was.journal[i].1))
    && ((forall i | i in was.journal :: Kept(i, was, wanted)) ==> s == was)
  }

  /** A delete that took effect. */
  ghost predicate Deleted(s: State, s': State, d: nat) {
    && s'.kernel == s.kernel[d := At(s'.kernel, d)] && Default(At(s'.kernel, d))
    && s'.mine == s.mine - {d} && s'.journal == s.journal
  }

  lemma Unchanged(s: State, wanted: Entries)
    requires Covered(s)
    ensures Releasing(s, s, wanted)
  {
  }

  lemma KeptElsewhere(was: State, wanted: Entries, iface: string, i: string)
    requires DistinctIndexes(was.journal) && iface in was.journal && !Kept(iface, was, wanted) && Kept(i, was, wanted)
    ensures was.journal[i].0 != was.journal[iface].0
  {
  }

  lemma DeletingIsSafe(was: State, s: State, s': State, wanted: Entries, iface: string)
    requires Covered(was) && Releasing(was, s, wanted)
    requires Entry(was.journal, iface, was.kernel) && !Kept(iface, was, wanted)
    requires Deleted(s, s', was.journal[iface].0)
    ensures Releasing(was, s', wanted)
  {
    var index := was.journal[iface].0;
    StillCovered(s, s', index);
    assert DistinctIndexes(was.journal);
    assert JournaledAndOwned(was, index);
    KeptStays(was, s, s', wanted, iface);
    GoneStaysGone(was, s, s', wanted, index);
    hide OwnedAt, Default, Covered, Journaled, DistinctIndexes, Entry, JournaledAndOwned;
    assert forall d | d != index :: At(s'.kernel, d) == At(s.kernel, d);
  }

  lemma KeptStays(was: State, s: State, s': State, wanted: Entries, iface: string)
    requires Covered(was) && Releasing(was, s, wanted) && iface in was.journal && !Kept(iface, was, wanted)
    requires Deleted(s, s', was.journal[iface].0)
    ensures forall i | Kept(i, was, wanted) ::
      i in s'.journal && At(s'.kernel, was.journal[i].0) == At(was.kernel, was.journal[i].0)
  {
    hide OwnedAt, Default, Journaled;
    forall i | Kept(i, was, wanted)
      ensures i in s'.journal && At(s'.kernel, was.journal[i].0) == At(was.kernel, was.journal[i].0)
    {
      KeptElsewhere(was, wanted, iface, i);
    }
  }

  lemma GoneStaysGone(was: State, s: State, s': State, wanted: Entries, index: nat)
    requires Releasing(was, s, wanted) && Deleted(s, s', index)
    ensures forall i | i in was.journal && i !in s'.journal ::
      !OwnedAt(s'.kernel, was.journal[i].0, was.journal[i].1)
  {
    hide OwnedAt, Default, Covered;
    forall i | i in was.journal && i !in s'.journal
      ensures !OwnedAt(s'.kernel, was.journal[i].0, was.journal[i].1)
    {
      var (d, o) := was.journal[i];
      if d == index {
        ForeignHandle(s'.kernel, d, o);
      } else {
        SameRoot(s.kernel, s'.kernel, d, o);
      }
    }
  }

  lemma SameRoot(k: Kernel, k': Kernel, d: nat, o: Options)
    requires At(k', d) == At(k, d)
    ensures OwnedAt(k', d, o) <==> OwnedAt(k, d, o)
  {
  }

  lemma StillCovered(s: State, s': State, index: nat)
    requires Covered(s) && Deleted(s, s', index)
    ensures Covered(s')
  {
    forall d | d in s'.mine
      ensures OwnedAt(s'.kernel, d, s'.mine[d]) && Journaled(s'.journal, d, s'.mine[d])
    {
      assert At(s'.kernel, d) == At(s.kernel, d);
    }
  }

  lemma ForgettingIsSafe(was: State, s: State, s': State, wanted: Entries, iface: string)
    requires Covered(was) && Releasing(was, s, wanted) && iface in was.journal && !Kept(iface, was, wanted)
    requires !OwnedAt(s.kernel, was.journal[iface].0, was.journal[iface].1)
    requires s' == s.(journal := s.journal - {iface})
    ensures Releasing(was, s', wanted)
  {
    hide OwnedAt, Default;
    forall d | d in s'.mine
      ensures Journaled(s'.journal, d, s'.mine[d])
    {
      var i :| i in s.journal && s.journal[i] == (d, s.mine[d]);
      assert i in s'.journal;
    }
  }

  // ------------------------------------------------------- the installing half

  /** What holds at every cut of the second half, which starts from `mid`. */
  ghost predicate Installing(mid: State, s: State, wanted: Entries) {
    && Covered(s)
    && (forall i | i in s.journal :: i in wanted && s.journal[i] == wanted[i])
    && (forall i | i in mid.journal :: i in s.journal && s.journal[i] == mid.journal[i])
    && (forall d :: At(s.kernel, d) == At(mid.kernel, d) || (WantedAt(wanted, d) && Vacant(At(mid.kernel, d))))
    && (forall d :: d in s.mine || (d !in mid.mine && At(s.kernel, d) == At(mid.kernel, d)))
  }

  lemma WritingIsSafe(mid: State, s: State, s': State, wanted: Entries, iface: string)
    requires Installing(mid, s, wanted) && DistinctIndexes(wanted) && iface in wanted
    requires s' == s.(journal := s.journal[iface := wanted[iface]])
    ensures Installing(mid, s', wanted)
  {
    hide OwnedAt, Vacant, WantedAt;
    forall d | d in s'.mine
      ensures Journaled(s'.journal, d, s'.mine[d])
    {
      var i :| i in s.journal && s.journal[i] == (d, s.mine[d]);
      assert i in s'.journal && s'.journal[i] == s.journal[i];
    }
  }

  /** An add that took effect. */
  ghost predicate Added(s: State, s': State, d: nat, o: Options) {
    && s'.kernel == s.kernel[d := At(s'.kernel, d)] && OwnedAt(s'.kernel, d, o)
    && s'.mine == s.mine[d := o] && s'.journal == s.journal
  }

  lemma AddingIsSafe(mid: State, s: State, s': State, wanted: Entries, iface: string)
    requires Installing(mid, s, wanted) && iface in s.journal
    requires Vacant(At(mid.kernel, wanted[iface].0)) && Added(s, s', wanted[iface].0, wanted[iface].1)
    ensures Installing(mid, s', wanted)
  {
    var (index, o) := wanted[iface];
    assert WantedAt(wanted, index);
    AddedIsCovered(s, s', index, o, iface);
    hide Vacant, OwnedAt, Covered, WantedAt;
    assert forall d | d != index :: At(s'.kernel, d) == At(s.kernel, d);
  }

  lemma AddedIsCovered(s: State, s': State, index: nat, o: Options, iface: string)
    requires Covered(s) && Added(s, s', index, o) && iface in s.journal && s.journal[iface] == (index, o)
    ensures Covered(s')
  {
    forall d | d in s'.mine
      ensures OwnedAt(s'.kernel, d, s'.mine[d]) && Journaled(s'.journal, d, s'.mine[d])
    {
      if d != index {
        assert At(s'.kernel, d) == At(s.kernel, d);
      } else {
        assert s'.journal[iface] == (index, o);
      }
    }
  }

  /**
   The state between the halves: what is journaled is wanted and in force, and what is wanted and in
   force as before is journaled.
   */
  ghost predicate Ready(mid: State, saved: Entries, wanted: Entries) {
    && Covered(mid)
    && (forall i | i in mid.journal ::
          Entry(mid.journal, i, mid.kernel) && Same(wanted, mid.journal, i) && Same(saved, wanted, i))
    && (forall i | i in wanted && Same(saved, wanted, i) && OwnedAt(mid.kernel, wanted[i].0, wanted[i].1) ::
          i in mid.journal)
  }

  lemma ReleasedIsReady(was: State, mid: State, wanted: Entries)
    requires Releasing(was, mid, wanted) && forall i | i in mid.journal :: Kept(i, was, wanted)
    ensures Ready(mid, was.journal, wanted)
  {
    forall i | i in wanted && Same(was.journal, wanted, i) && OwnedAt(mid.kernel, wanted[i].0, wanted[i].1)
      ensures i in mid.journal
    {
      assert At(mid.kernel, wanted[i].0) == At(was.kernel, wanted[i].0);
      assert Kept(i, was, wanted);
    }
  }

  lemma StartInstalling(mid: State, saved: Entries, wanted: Entries)
    requires Ready(mid, saved, wanted)
    ensures Installing(mid, mid, wanted)
  {
  }

  /** The loop skips an interface exactly when its entry survived the first half. */
  lemma SkippedIsKept(mid: State, s: State, saved: Entries, wanted: Entries, i: string)
    requires Ready(mid, saved, wanted) && Installing(mid, s, wanted) && i in wanted
    requires At(s.kernel, wanted[i].0) == At(mid.kernel, wanted[i].0)
    ensures (i in saved && saved[i] == wanted[i] && OwnedAt(mid.kernel, wanted[i].0, wanted[i].1)) <==> i in mid.journal
    ensures i in mid.journal ==> i in s.journal && OwnedAt(s.kernel, wanted[i].0, wanted[i].1)
  {
  }

  /** Every wanted entry outside `todo` is journaled and in force. */
  ghost predicate Installed(s: State, wanted: Entries, todo: set<string>) {
    forall i | i in wanted && i !in todo :: i in s.journal && OwnedAt(s.kernel, wanted[i].0, wanted[i].1)
  }

  lemma OneMoreInstalled(s: State, s': State, wanted: Entries, todo: set<string>, iface: string)
    requires DistinctIndexes(wanted) && iface in wanted && Installed(s, wanted, todo)
    requires forall d | d != wanted[iface].0 :: At(s'.kernel, d) == At(s.kernel, d)
    requires s'.journal == s.journal || s'.journal == s.journal[iface := wanted[iface]]
    requires iface in s'.journal && OwnedAt(s'.kernel, wanted[iface].0, wanted[iface].1)
    ensures Installed(s', wanted, todo - {iface})
  {
    forall i | i in wanted && i !in todo - {iface}
      ensures i in s'.journal && OwnedAt(s'.kernel, wanted[i].0, wanted[i].1)
    {
      if i != iface {
        assert At(s'.kernel, wanted[i].0) == At(s.kernel, wanted[i].0);
      }
    }
  }

  lemma AllInstalled(mid: State, s: State, wanted: Entries)
    requires Installing(mid, s, wanted) && Installed(s, wanted, {})
    ensures InForce(s, wanted)
  {
  }

  // -------------------------------------------------------------- a whole run

  /** Everything wanted is journaled, as wanted, and in force. */
  ghost predicate InForce(s: State, wanted: Entries) {
    s.journal == wanted && forall i | i in wanted :: OwnedAt(s.kernel, wanted[i].0, wanted[i].1)
  }

  /** Interfaces that neither carry a journaled root of ours nor are wanted and vacant are left alone. */
  ghost predicate OthersAlone(was: State, s: State, wanted: Entries) {
    forall d ::
      || At(s.kernel, d) == At(was.kernel, d) || JournaledAndOwned(was, d)
      || (WantedAt(wanted, d) && Vacant(At(was.kernel, d)))
  }

  lemma HalvesLeaveOthersAlone(was: State, mid: State, s: State, wanted: Entries)
    requires Releasing(was, mid, wanted) && Installing(mid, s, wanted)
    ensures OthersAlone(was, s, wanted)
  {
    hide OwnedAt, Vacant, Covered, Default;
  }

  lemma NothingWanted(s: State)
    requires Covered(s) && s.journal == map[]
    ensures s.mine == map[]
  {
    assert forall d | d in s.mine :: Journaled(s.journal, d, s.mine[d]);
    assert s.mine.Keys == {};
  }

  lemma ForeignHandle(k: Kernel, d: nat, o: Options)
    requires Default(At(k, d))
    ensures !OwnedAt(k, d, o)
  {
  }

  /** The second half stops at a wanted interface that is not in force yet and not vacant, and leaves it as it is. */
  ghost predicate Stopped(mid: State, s: State, wanted: Entries) {
    exists i :: i in wanted && i !in mid.journal && StoppedAt(mid, s, wanted[i].0)
  }

  ghost predicate StoppedAt(mid: State, s: State, d: nat) {
    !Vacant(At(mid.kernel, d)) && At(s.kernel, d) == At(mid.kernel, d)
  }

  /**
   A custom root or child stands on a wanted interface that was not in force: since before the run, or
   put there by the kernel when a root of ours was deleted.
   */
  ghost predicate Blocked(was: State, s: State, wanted: Entries) {
    exists i :: i in wanted && !Kept(i, was, wanted) && BlockedAt(was, s, wanted[i].0)
  }

  ghost predicate BlockedAt(was: State, s: State, d: nat) {
    !Vacant(At(s.kernel, d)) && (At(s.kernel, d) == At(was.kernel, d) || JournaledAndOwned(was, d))
  }

  lemma StoppedIsBlocked(was: State, mid: State, s: State, wanted: Entries)
    requires Releasing(was, mid, wanted) && Stopped(mid, s, wanted)
    ensures Blocked(was, s, wanted)
  {
    hide Vacant, Covered, Default, OwnedAt;
    var i :| i in wanted && i !in mid.journal && StoppedAt(mid, s, wanted[i].0);
    assert !Kept(i, was, wanted);
    assert BlockedAt(was, s, wanted[i].0);
  }

  /** What was wanted and in force stays, untouched, whatever else the run does and wherever it ends. */
  ghost predicate KeepsInForce(was: State, s: State, wanted: Entries) {
    forall i | Kept(i, was, wanted) ::
      i in s.journal && s.journal[i] == wanted[i] && At(s.kernel, wanted[i].0) == At(was.kernel, wanted[i].0)
  }

  lemma ReleasingKeeps(was: State, s: State, wanted: Entries)
    requires Releasing(was, s, wanted)
    ensures KeepsInForce(was, s, wanted)
  {
    hide Covered, OwnedAt, Default;
  }

  lemma HalvesKeep(was: State, mid: State, s: State, wanted: Entries)
    requires Releasing(was, mid, wanted) && Installing(mid, s, wanted)
    ensures KeepsInForce(was, s, wanted)
  {
    forall i | Kept(i, was, wanted)
      ensures i in s.journal && s.journal[i] == wanted[i]
      ensures At(s.kernel, wanted[i].0) == At(was.kernel, wanted[i].0)
    {
      assert i in mid.journal && At(mid.kernel, wanted[i].0) == At(was.kernel, wanted[i].0);
      assert OwnedAt(mid.kernel, wanted[i].0, wanted[i].1);
      assert !Vacant(At(mid.kernel, wanted[i].0));
    }
  }

  /** What was ours is still ours, or no longer in the kernel. */
  ghost predicate Honest(was: State, s: State) {
    forall d | d in was.mine :: (d in s.mine && s.mine[d] == was.mine[d]) || !OwnedAt(s.kernel, d, was.mine[d])
  }

  lemma HalvesAreHonest(was: State, mid: State, s: State, wanted: Entries)
    requires Covered(was) && Releasing(was, mid, wanted) && Installing(mid, s, wanted)
    ensures Honest(was, s)
  {
    forall d | d in was.mine
      ensures (d in s.mine && s.mine[d] == was.mine[d]) || !OwnedAt(s.kernel, d, was.mine[d])
    {
      if d in s.mine {
        assert OwnedAt(s.kernel, d, s.mine[d]);
      } else {
        assert At(s.kernel, d) == At(mid.kernel, d);
        assert Default(At(mid.kernel, d));
      }
    }
  }

  lemma ReleasedIsHonest(was: State, mid: State, wanted: Entries)
    requires Releasing(was, mid, wanted)
    ensures Honest(was, mid)
  {
    forall d | d in was.mine
      ensures (d in mid.mine && mid.mine[d] == was.mine[d]) || !OwnedAt(mid.kernel, d, was.mine[d])
    {
      if d !in mid.mine {
        ForeignHandle(mid.kernel, d, was.mine[d]);
      }
    }
  }

  /** A root of ours that the journal names leaves the kernel before the journal forgets it. */
  ghost predicate NoneOrphaned(was: State, s: State) {
    forall i | Entry(was.journal, i, was.kernel) ::
      var (d, o) := was.journal[i]; Journaled(s.journal, d, o) || !OwnedAt(s.kernel, d, o)
  }

  lemma ReleasingOrphansNone(was: State, s: State, wanted: Entries)
    requires Releasing(was, s, wanted)
    ensures NoneOrphaned(was, s)
  {
    hide Covered, OwnedAt, Default;
  }

  lemma HalvesOrphanNone(was: State, mid: State, s: State, wanted: Entries)
    requires Releasing(was, mid, wanted) && Installing(mid, s, wanted)
    ensures NoneOrphaned(was, s)
  {
    forall i | Entry(was.journal, i, was.kernel)
      ensures var (d, o) := was.journal[i]; Journaled(s.journal, d, o) || !OwnedAt(s.kernel, d, o)
    {
      var (d, o) := was.journal[i];
      if i in mid.journal {
        assert s.journal[i] == (d, o);
      } else if d in s.mine {
        OneRoot(s.kernel, d, o, s.mine[d]);
      } else {
        assert At(s.kernel, d) == At(mid.kernel, d);
      }
    }
  }

  /** A root is ours with one set of options only. */
  lemma OneRoot(k: Kernel, d: nat, o: Options, o': Options)
    requires OwnedAt(k, d, o')
    ensures OwnedAt(k, d, o) ==> o == o'
  {
  }

  /** What a run of reconcile does to the host, wherever it ends. */
  ghost predicate Reconciled(was: State, s: State, wanted: Entries, r: Ending) {
    && Covered(s) && OthersAlone(was, s, wanted) && Honest(was, s)
    && KeepsInForce(was, s, wanted) && NoneOrphaned(was, s)
    && (r == Done ==> InForce(s, wanted))
    && (r == Done && wanted == map[] ==> s.mine == map[])
    && (InForce(was, wanted) ==> s == was)
  }

  /** After the first half only wanted entries are left; with nothing journaled before, nothing has changed. */
  lemma EmptyReleased(was: State, mid: State, wanted: Entries)
    requires Releasing(was, mid, wanted)
    ensures was.journal == map[] ==> mid == was
  {
  }

  lemma ReleasedAlone(was: State, mid: State, wanted: Entries)
    requires Releasing(was, mid, wanted)
    ensures OthersAlone(was, mid, wanted) && Covered(mid)
  {
  }

  /** A run that wants what is already in force has nothing to undo. */
  lemma InForceIsKept(s: State, wanted: Entries)
    requires InForce(s, wanted)
    ensures forall i | i in s.journal :: Kept(i, s, wanted)
  {
    hide OwnedAt;
  }

  /** Once nothing is wanted and the journal is empty, what was ours has gone from the kernel. */
  lemma AllGone(was: State, mid: State, s: State)
    requires Releasing(was, mid, map[]) && Installing(mid, s, map[]) && InForce(s, map[])
    ensures s.mine == map[] && forall d | d in was.mine :: !OwnedAt(s.kernel, d, was.mine[d])
  {
    NothingWanted(s);
    assert forall i | i in mid.journal :: i in s.journal;
    assert mid.journal == map[];
    NothingWanted(mid);
    forall d | d in was.mine
      ensures !OwnedAt(s.kernel, d, was.mine[d])
    {
      assert At(s.kernel, d) == At(mid.kernel, d);
      ForeignHandle(mid.kernel, d, was.mine[d]);
    }
  }

  lemma NothingToDo(s: State)
    requires Covered(s) && s.journal == map[]
    ensures Reconciled(s, s, map[], Done)
  {
    NothingWanted(s);
    hide OwnedAt;
  }

  /** A run that ends in its first half. */
  lemma FirstHalfIs(was: State, mid: State, wanted: Entries, r: Ending)
    requires Releasing(was, mid, wanted) && r != Done
    ensures Reconciled(was, mid, wanted, r)
  {
    ReleasedAlone(was, mid, wanted);
    ReleasedIsHonest(was, mid, wanted);
    ReleasingKeeps(was, mid, wanted);
    ReleasingOrphansNone(was, mid, wanted);
    if InForce(was, wanted) {
      InForceIsKept(was, wanted);
    }
    hide Covered, OthersAlone, Honest, KeepsInForce, NoneOrphaned, OwnedAt, Default;
  }

  /** A run that gets into its second half. */
  lemma BothHalvesAre(was: State, mid: State, s: State, wanted: Entries, r: Ending)
    requires Covered(was) && Releasing(was, mid, wanted) && Installing(mid, s, wanted)
    requires r == Done ==> InForce(s, wanted)
    requires InForce(was, wanted) ==> s == was
    ensures Reconciled(was, s, wanted, r)
  {
    HalvesLeaveOthersAlone(was, mid, s, wanted);
    HalvesAreHonest(was, mid, s, wanted);
    HalvesKeep(was, mid, s, wanted);
    HalvesOrphanNone(was, mid, s, wanted);
    if r == Done && wanted == map[] {
      AllGone(was, mid, s);
    }
    hide OthersAlone, Honest, KeepsInForce, NoneOrphaned, OwnedAt, Releasing, InForce;
  }

  class Host {
    var kernel: Kernel
    var journal: Entries
    ghost var mine: map<nat, Options>   // roots this program installed and nobody changed since
    ghost var adds: nat
    ghost var deletes: nat
    ghost var troubles: nat             // operations that failed for nothing, and cuts

    constructor (kernel: Kernel)
      ensures this.kernel == kernel && journal == map[] && mine == map[] && Covered(Now())
    {
      this.kernel, journal, mine, adds, deletes, troubles := kernel, map[], map[], 0, 0, 0;
    }

    ghost function Now(): State
      reads this
    {
      State(kernel, journal, mine)
    }

    // ------------------------------------------------------------ primitive steps

    /** Somebody else changes one interface. */
    method Outside(index: nat, now: Device)
      requires Covered(Now())
      modifies this`kernel, this`mine
      ensures Covered(Now()) && kernel == old(kernel)[index := now] && mine == old(mine) - {index}
    {
      kernel := kernel[index := now];
      mine := mine - {index};
    }

    method Roots() returns (r: Option<Kernel>)
      modifies this`troubles
      ensures r.Some? ==> r.value == kernel && troubles == old(troubles)
      ensures r.None? ==> troubles > old(troubles)
    {
      var fault: bool := *;
      troubles := troubles + (if fault then 1 else 0);
      r := if fault then None else Some(kernel);
    }

    method Journals() returns (r: Option<Entries>)
      modifies this`troubles
      ensures r.Some? ==> r.value == journal && troubles == old(troubles)
      ensures r.None? ==> troubles > old(troubles)
    {
      var fault: bool := *;
      troubles := troubles + (if fault then 1 else 0);
      r := if fault then None else Some(journal);
    }

    /** The program may end between any two steps. */
    method Step() returns (go: bool)
      modifies this`troubles
      ensures go ==> troubles == old(troubles)
      ensures !go ==> troubles > old(troubles)
    {
      go := *;
      troubles := troubles + (if go then 0 else 1);
    }

    /** NLM_F_CREATE | NLM_F_EXCL: refused unless the root is a kernel default. */
    method Add(index: nat, o: Options) returns (ok: bool)
      modifies this`kernel, this`mine, this`adds, this`troubles
      ensures adds == old(adds) + 1
      ensures (!ok && Now() == old(Now())) || (Added(old(Now()), Now(), index, o) && Default(At(old(kernel), index)))
      ensures troubles >= old(troubles) && (troubles == old(troubles) ==> (ok <==> Default(At(old(kernel), index))))
    {
      adds := adds + 1;
      var d := At(kernel, index);
      var fault: bool := *;
      var effect: bool := *;
      ok := !fault && Default(d);
      troubles := troubles + (if fault then 1 else 0);
      if ok || (effect && Default(d)) {
        kernel := kernel[index := Device(Some(Cake(index, o)), set q | q in d.children && Beside(q))];
        mine := mine[index := o];
        troubles := troubles + (if ok then 0 else 1);
      }
    }

    /** Removes the root with our handle; the kernel puts its default back. */
    method Delete(index: nat) returns (ok: bool)
      modifies this`kernel, this`mine, this`deletes, this`troubles
      ensures deletes == old(deletes) + 1
      ensures (!ok && Now() == old(Now())) || Deleted(old(Now()), Now(), index)
      ensures troubles >= old(troubles)
      ensures troubles == old(troubles) ==>
        (ok <==> At(old(kernel), index).root.Some? && At(old(kernel), index).root.value.handle == HANDLE)
    {
      deletes := deletes + 1;
      var d := At(kernel, index);
      var fault: bool := *;
      var effect: bool := *;
      var visible: bool := *;
      var kind: bytes := *;
      ok := !fault && d.root.Some? && d.root.value.handle == HANDLE;
      troubles := troubles + (if fault then 1 else 0);
      if d.root.Some? && d.root.value.handle == HANDLE && (ok || effect) {
        var root := if visible then Some(Qdisc(index, ROOT, 0, kind, map[])) else None;
        kernel := kernel[index := Device(root, set q | q in d.children && Beside(q))];
        mine := mine - {index};
      }
    }

    method RemoveJournal(iface: string) returns (ok: bool)
      modifies this`journal, this`troubles
      ensures journal == if ok then old(journal) - {iface} else old(journal)
      ensures troubles >= old(troubles) && (troubles == old(troubles) ==> (ok <==> iface in old(journal)))
    {
      var fault: bool := *;
      ok := !fault && iface in journal;
      troubles := troubles + (if fault then 1 else 0);
      if ok {
        journal := journal - {iface};
      }
    }

    /** A temporary file, then a rename: the old entry or the new one, never a part. */
    method WriteJournal(iface: string, index: nat, o: Options) returns (ok: bool)
      modifies this`journal, this`troubles
      ensures ok ==> journal == old(journal)[iface := (index, o)] && troubles == old(troubles)
      ensures journal == old(journal) || journal == old(journal)[iface := (index, o)]
      ensures !ok ==> troubles > old(troubles)
    {
      var fault: bool := *;
      var effect: bool := *;
      ok := !fault;
      troubles := troubles + (if fault then 1 else 0);
      if ok || effect {
        journal := journal[iface := (index, o)];
      }
    }

    // ------------------------------------------------------------------ reconcile

    /** First half: entries that are wanted as they are and still in force stay; all others are undone. */
    method Release(saved: Entries, wanted: Entries, roots: Kernel) returns (r: Ending)
      requires Covered(Now()) && journal == saved && kernel == roots
      modifies this
      ensures Releasing(old(Now()), Now(), wanted) && adds == old(adds) && troubles >= old(troubles)
      ensures r == Done ==> forall i | i in journal :: Kept(i, old(Now()), wanted)
      ensures troubles == old(troubles) ==> r == Done
      ensures (forall i | i in saved :: Kept(i, old(Now()), wanted)) ==> deletes == old(deletes)
    {
      ghost var was := Now();
      assert DistinctIndexes(saved);
      Unchanged(was, wanted);
      hide Covered, OwnedAt, Releasing;
      var todo := saved.Keys;
      while todo != {}
        invariant Releasing(was, Now(), wanted) && adds == old(adds) && todo <= saved.Keys && troubles >= old(troubles)
        invariant forall i | i in todo :: i in journal && At(kernel, saved[i].0) == At(roots, saved[i].0)
        invariant forall i | i in journal && i !in todo :: Kept(i, was, wanted)
        invariant (forall i | i in saved :: Kept(i, was, wanted)) ==> deletes == old(deletes)
        decreases |todo|
      {
        var iface :| iface in todo;
        var (index, o) := saved[iface];
        if iface in wanted && wanted[iface] == (index, o) && OwnedAt(roots, index, o) {
        } else {
          r := Undo(iface, index, o, roots, wanted, was);
          if r != Done {
            return;
          }
        }
        todo := todo - {iface};
      }
      r := Done;
    }

    /** One journaled root is deleted if it is still ours, and then forgotten. */
    method Undo(iface: string, index: nat, o: Options, roots: Kernel, ghost wanted: Entries, ghost was: State)
      returns (r: Ending)
      requires Covered(was) && roots == was.kernel && iface in was.journal && was.journal[iface] == (index, o)
      requires iface in journal
      requires !Kept(iface, was, wanted) && Releasing(was, Now(), wanted) && At(kernel, index) == At(roots, index)
      modifies this
      ensures Releasing(was, Now(), wanted) && adds == old(adds) && troubles >= old(troubles)
      ensures r == Done ==> journal == old(journal) - {iface}
      ensures troubles == old(troubles) ==> r == Done
      ensures forall d | d != index :: At(kernel, d) == At(old(kernel), d)
    {
      hide Releasing;
      if OwnedAt(roots, index, o) {
        var go := Step();
        if !go {
          return Cut;
        }
        ghost var before := Now();
        var deleted := Delete(index);
        if Now() != before {
          DeletingIsSafe(was, before, Now(), wanted, iface);
        }
        if !deleted {
          return Failed;
        }
      }
      var go := Step();
      if !go {
        return Cut;
      }
      ghost var before := Now();
      var removed := RemoveJournal(iface);
      if !removed {
        return Failed;
      }
      ForgettingIsSafe(was, before, Now(), wanted, iface);
      r := Done;
    }

    /** Second half: everything wanted that is not in force yet is journaled, added and verified. */
    method Install(saved: Entries, wanted: Entries, roots: Kernel) returns (r: Ending)
      requires DistinctIndexes(wanted) && kernel == roots && Ready(Now(), saved, wanted)
      modifies this
      ensures Installing(old(Now()), Now(), wanted) && deletes == old(deletes) && troubles >= old(troubles)
      ensures r == Done ==> InForce(Now(), wanted)
      ensures troubles == old(troubles) ==> r == Done || Stopped(old(Now()), Now(), wanted)
      ensures (forall i | i in wanted :: i in old(journal)) ==> adds == old(adds) && Now() == old(Now())
    {
      ghost var mid := Now();
      StartInstalling(mid, saved, wanted);
      assert Installed(mid, wanted, wanted.Keys);
      hide Covered, OwnedAt, Installing, Installed, Vacant, Ready, Replaceable, Journaled, Added, Entry, WantedAt;
      var todo := wanted.Keys;
      while todo != {}
        invariant Installing(mid, Now(), wanted) && deletes == old(deletes) && todo <= wanted.Keys
        invariant troubles >= old(troubles)
        invariant forall i | i in todo :: At(kernel, wanted[i].0) == At(roots, wanted[i].0)
        invariant Installed(Now(), wanted, todo)
        invariant (forall i | i in wanted :: i in mid.journal) ==> adds == old(adds) && Now() == mid
        decreases |todo|
      {
        var iface :| iface in todo;
        ghost var before := Now();
        r := InstallOne(iface, saved, wanted, roots, mid);
        if r != Done {
          return;
        }
        OneMoreInstalled(before, Now(), wanted, todo, iface);
        todo := todo - {iface};
      }
      AllInstalled(mid, Now(), wanted);
      r := Done;
    }

    /** One wanted interface: in force already, or in the way of a custom root, or put in force now. */
    method InstallOne(iface: string, saved: Entries, wanted: Entries, roots: Kernel, ghost mid: State)
      returns (r: Ending)
      requires DistinctIndexes(wanted) && iface in wanted && mid.kernel == roots && Ready(mid, saved, wanted)
      requires Installing(mid, Now(), wanted) && At(kernel, wanted[iface].0) == At(roots, wanted[iface].0)
      modifies this
      ensures Installing(mid, Now(), wanted) && deletes == old(deletes) && troubles >= old(troubles)
      ensures forall d | d != wanted[iface].0 :: At(kernel, d) == At(old(kernel), d)
      ensures journal == old(journal) || journal == old(journal)[iface := wanted[iface]]
      ensures r == Done ==> iface in journal && OwnedAt(kernel, wanted[iface].0, wanted[iface].1)
      ensures troubles == old(troubles) ==>
        r == Done || (iface !in mid.journal && StoppedAt(mid, Now(), wanted[iface].0))
      ensures iface in mid.journal ==> r == Done && adds == old(adds) && Now() == old(Now())
    {
      hide Covered, OwnedAt, Installing, Vacant, Ready, Replaceable, Journaled, Added, Entry, WantedAt;
      var (index, o) := wanted[iface];
      SkippedIsKept(mid, Now(), saved, wanted, iface);
      if iface in saved && saved[iface] == (index, o) && OwnedAt(roots, index, o) {
        return Done;
      }
      if !Vacant(At(roots, index)) {
        return Failed;
      }
      r := Put(iface, index, o, wanted, mid);
    }

    method Put(iface: string, index: nat, o: Options, ghost wanted: Entries, ghost mid: State) returns (r: Ending)
      requires Installing(mid, Now(), wanted) && DistinctIndexes(wanted) && iface in wanted
      requires wanted[iface] == (index, o)
      requires Vacant(At(mid.kernel, index)) && At(kernel, index) == At(mid.kernel, index)
      modifies this
      ensures Installing(mid, Now(), wanted) && deletes == old(deletes) && troubles >= old(troubles)
      ensures forall d | d != index :: At(kernel, d) == At(old(kernel), d)
      ensures journal == old(journal) || journal == old(journal)[iface := (index, o)]
      ensures r == Done ==> iface in journal && OwnedAt(kernel, index, o)
      ensures troubles == old(troubles) ==> r == Done
    {
      hide Installing, Covered;
      var go := Step();
      if !go {
        return Cut;
      }
      ghost var before := Now();
      var written := WriteJournal(iface, index, o);
      if Now() != before {
        WritingIsSafe(mid, before, Now(), wanted, iface);
      }
      if !written {
        return Failed;
      }
      go := Step();
      if !go {
        return Cut;
      }
      before := Now();
      var added := Add(index, o);
      if Now() != before {
        AddingIsSafe(mid, before, Now(), wanted, iface);
      }
      if !added {
        return Failed;
      }
      var check := Roots();
      if check.None? || !OwnedAt(check.value, index, o) {
        return Failed;
      }
      r := Done;
    }

    /** reconcile: afterwards, and at every cut on the way, each root of ours is journaled. */
    method Reconcile(wanted: Entries) returns (r: Ending)
      requires Covered(Now()) && DistinctIndexes(wanted)
      modifies this
      ensures Reconciled(old(Now()), Now(), wanted, r)
      ensures troubles >= old(troubles)
      ensures troubles == old(troubles) ==> r == Done || Blocked(old(Now()), Now(), wanted)
      ensures InForce(old(Now()), wanted) ==> adds == old(adds) && deletes == old(deletes)
    {
      ghost var was := Now();
      Unchanged(was, wanted);
      FirstHalfIs(was, was, wanted, Failed);
      if InForce(was, wanted) {
        InForceIsKept(was, wanted);
      }
      hide Releasing, Installing, OwnedAt, Vacant, Ready, Reconciled, Stopped, Blocked;
      var entries := Journals();
      if entries.None? {
        return Failed;
      }
      var saved := entries.value;
      if saved == map[] && wanted == map[] {
        NothingToDo(was);
        return Done;
      }
      var dump := Roots();
      if dump.None? {
        return Failed;
      }
      r := Release(saved, wanted, dump.value);
      ghost var mid := Now();
      if r != Done {
        FirstHalfIs(was, mid, wanted, r);
        return;
      }
      ReleasedIsReady(was, mid, wanted);
      if saved != map[] {
        dump := Roots();
        if dump.None? {
          FirstHalfIs(was, mid, wanted, Failed);
          return Failed;
        }
      }
      EmptyReleased(was, mid, wanted);
      r := Install(saved, wanted, dump.value);
      if r != Done && troubles == old(troubles) {
        StoppedIsBlocked(was, mid, Now(), wanted);
      }
      BothHalvesAre(was, mid, Now(), wanted, r);
    }
  }

  // ------------------------------------------------------------------ histories

  /** One thing that happens to the host: a reconcile, ending anywhere, or a change made by somebody else. */
  datatype Event = Run(wanted: Entries) | Change(index: nat, now: Device)

  predicate Sensible(e: Event) { e.Run? ==> DistinctIndexes(e.wanted) }

  ghost predicate Stepped(s: State, e: Event, s': State) {
    match e
    case Run(wanted) => exists r :: Reconciled(s, s', wanted, r)
    case Change(index, now) => s' == s.(kernel := s.kernel[index := now], mine := s.mine - {index})
  }

  /** The states a host goes through while the events happen. */
  ghost predicate Path(states: seq<State>, events: seq<Event>) {
    |states| == |events| + 1 && forall i | 0 <= i < |events| :: Stepped(states[i], events[i], states[i + 1])
  }

  /** Every root of ours is journaled at every point of every history. */
  lemma {:induction false} PathIsCovered(states: seq<State>, events: seq<Event>, n: nat)
    requires Path(states, events) && n < |states| && Covered(states[0])
    ensures Covered(states[n])
  {
    if n > 0 {
      PathIsCovered(states, events, n - 1);
      var s, e, s' := states[n - 1], events[n - 1], states[n];
      assert Stepped(s, e, s');
      match e
      case Run(wanted) =>
      case Change(index, now) =>
        ChangeKeepsCovered(s, index, now);
    }
  }

  lemma ChangeKeepsCovered(s: State, index: nat, now: Device)
    requires Covered(s)
    ensures Covered(s.(kernel := s.kernel[index := now], mine := s.mine - {index}))
  {
    var s' := s.(kernel := s.kernel[index := now], mine := s.mine - {index});
    forall d | d in s'.mine
      ensures OwnedAt(s'.kernel, d, s'.mine[d]) && Journaled(s'.journal, d, s'.mine[d])
    {
      assert At(s'.kernel, d) == At(s.kernel, d);
    }
  }

  /** No interface outside what somebody else changed and what was ever wanted or journaled as ours is touched. */
  lemma {:induction false} PathRespectsOthers(states: seq<State>, events: seq<Event>, d: nat)
    requires Path(states, events) && Covered(states[0])
    requires forall i | 0 <= i < |states| :: !JournaledAndOwned(states[i], d)
    requires forall i | 0 <= i < |events| ::
      if events[i].Run? then !(WantedAt(events[i].wanted, d) && Vacant(At(states[i].kernel, d)))
      else events[i].index != d
    ensures forall i | 0 <= i < |states| :: At(states[i].kernel, d) == At(states[0].kernel, d)
  {
    hide JournaledAndOwned, WantedAt, Vacant, Covered, Honest, InForce;
    if events != [] {
      var n := |events|;
      var before, earlier := states[..n], events[..n - 1];
      assert Path(before, earlier);
      PathRespectsOthers(before, earlier, d);
      assert Stepped(states[n - 1], events[n - 1], states[n]);
      assert At(states[n].kernel, d) == At(states[n - 1].kernel, d);
      assert before[n - 1] == states[n - 1];
    }
  }

  /**
   After any history, one completed cleanup takes every root that is still ours out of the kernel,
   and empties the journal.
   */
  lemma CleanupRemovesAll(states: seq<State>, events: seq<Event>, s: State)
    requires Path(states, events) && Covered(states[0]) && Reconciled(states[|events|], s, map[], Done)
    ensures var left := states[|events|];
      && s.journal == map[] && s.mine == map[] && Covered(left)
      && (forall d | d in left.mine :: OwnedAt(left.kernel, d, left.mine[d]) && !OwnedAt(s.kernel, d, left.mine[d]))
      && (forall d :: At(s.kernel, d) == At(left.kernel, d) || JournaledAndOwned(left, d))
  {
    PathIsCovered(states, events, |events|);
    hide JournaledAndOwned;
    assert forall d :: !WantedAt(map[], d);
  }

  /** The events happen one after another; reconcile may end anywhere each time. */
  method Live(h: Host, events: seq<Event>) returns (ghost states: seq<State>)
    requires Covered(h.Now()) && forall e | e in events :: Sensible(e)
    modifies h
    ensures Path(states, events) && states[0] == old(h.Now()) && states[|events|] == h.Now() && Covered(h.Now())
  {
    hide Covered, Reconciled;
    states := [h.Now()];
    for i := 0 to |events|
      invariant Covered(h.Now()) && |states| == i + 1 && states[0] == old(h.Now()) && states[i] == h.Now()
      invariant forall k | 0 <= k < i :: Stepped(states[k], events[k], states[k + 1])
    {
      assert Sensible(events[i]);
      ghost var before := h.Now();
      match events[i] {
        case Run(wanted) =>
          var r := h.Reconcile(wanted);
          ReconciledIsCovered(before, h.Now(), wanted, r);
        case Change(index, now) =>
          h.Outside(index, now);
      }
      states := states + [h.Now()];
      assert Stepped(states[i], events[i], states[i + 1]);
    }
  }

  lemma ReconciledIsCovered(was: State, s: State, wanted: Entries, r: Ending)
    requires Reconciled(was, s, wanted, r)
    ensures Covered(s)
  {
  }

  /** The same on a host: after the events, a cleanup that completes leaves nothing of ours. */
  method LiveThenCleanup(h: Host, events: seq<Event>) returns (r: Ending, ghost states: seq<State>)
    requires Covered(h.Now()) && forall e | e in events :: Sensible(e)
    modifies h
    ensures Path(states, events) && states[0] == old(h.Now()) && Reconciled(states[|events|], h.Now(), map[], r)
    ensures r == Done ==> h.journal == map[] && h.mine == map[]
    ensures r == Done ==> forall d | d in states[|events|].mine :: !OwnedAt(h.kernel, d, states[|events|].mine[d])
  {
    states := Live(h, events);
    hide Path, Covered, OthersAlone;
    r := h.Reconcile(map[]);
  }
}
