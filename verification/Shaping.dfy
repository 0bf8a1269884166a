/**
 What reconciling does to the qdiscs of an interface, told by kinds, handles and options as they
 appear in a dump: whose qdiscs are never touched, and which interfaces get shaped.
 */
module Shaping {
  import opened Bytes
  import opened Layout
  import opened QosCodec
  import opened Qos

  // ------------------------------------------------------------------- devices

  /** A root the kernel puts there by itself. */
  predicate ByDefault(q: Qdisc) {
    && q.handle == 0
    && (q.kind == Spelled("noqueue") || q.kind == Spelled("pfifo_fast") || q.kind == Spelled("fq")
        || q.kind == Spelled("fq_codel") || q.kind == Spelled("mq"))
  }

  /** A child somebody set up. */
  predicate ByHand(q: Qdisc) { q.kind != Spelled("ingress") && q.kind != Spelled("clsact") && q.handle != 0 }

  /** Nothing on this device belongs to anybody. */
  ghost predicate Free(d: Device) {
    (d.root.Some? ==> ByDefault(d.root.value)) && forall q | q in d.children :: !ByHand(q)
  }

  /** The program's root on an interface: handle 7e10:, CAKE, with these options. */
  function OurRoot(index: nat, o: Options): Qdisc { Qdisc(index, 0xffff_ffff, 0x7e10_0000, Spelled("cake"), o) }

  ghost predicate Carries(d: Device, index: nat, o: Options) {
    d.root.Some? && d.root.value == OurRoot(index, o)
  }

  /** The journal names the root of this interface. */
  ghost predicate Claimed(s: State, d: nat) {
    exists i :: i in s.journal && s.journal[i].0 == d && Carries(At(s.kernel, d), d, s.journal[i].1)
  }

  lemma KindsAreSpelled()
    ensures Spelled("noqueue") == NOQUEUE && Spelled("pfifo_fast") == PFIFO_FAST && Spelled("fq") == FQ
    ensures Spelled("fq_codel") == FQ_CODEL && Spelled("mq") == MQ
    ensures Spelled("ingress") == INGRESS && Spelled("clsact") == CLSACT && Spelled("cake") == CAKE
  {
    assert |Spelled("noqueue")| == 7 && |Spelled("pfifo_fast")| == 10 && |Spelled("fq")| == 2;
  }

  lemma FreeIsVacant(d: Device)
    ensures Free(d) <==> Vacant(d)
  {
    KindsAreSpelled();
    hide Spelled;
  }

  lemma CarriedIsOwned(k: Kernel, d: nat, o: Options)
    ensures Carries(At(k, d), d, o) <==> OwnedAt(k, d, o)
  {
    KindsAreSpelled();
    hide Spelled;
  }

  // ------------------------------------------------------------------- one run

  lemma ClaimedIsOwned(s: State, d: nat)
    ensures JournaledAndOwned(s, d) ==> Claimed(s, d)
  {
    if i :| Entry(s.journal, i, s.kernel) && s.journal[i].0 == d {
      CarriedIsOwned(s.kernel, d, s.journal[i].1);
    }
  }

  /** A device without a claimed root of ours, and not all kernel defaults, stays as it is, wherever a run ends. */
  lemma CustomIsPreserved(was: State, s: State, wanted: Entries, r: Ending, d: nat)
    requires Reconciled(was, s, wanted, r) && !Claimed(was, d) && !Free(At(was.kernel, d))
    ensures At(s.kernel, d) == At(was.kernel, d)
  {
    FreeIsVacant(At(was.kernel, d));
    ClaimedIsOwned(was, d);
    hide Claimed;
    hide Vacant, Free, Covered, OwnedAt, Honest, KeepsInForce, NoneOrphaned;
  }

  /** A finished run has put exactly the wanted roots on the wanted interfaces, and says so in the journal. */
  lemma DoneMeansShaped(was: State, s: State, wanted: Entries)
    requires Reconciled(was, s, wanted, Done)
    ensures s.journal == wanted
    ensures forall i | i in wanted :: Carries(At(s.kernel, wanted[i].0), wanted[i].0, wanted[i].1)
  {
    forall i | i in wanted
      ensures Carries(At(s.kernel, wanted[i].0), wanted[i].0, wanted[i].1)
    {
      CarriedIsOwned(s.kernel, wanted[i].0, wanted[i].1);
    }
  }

  /** The interface carries its wanted root already, and the journal says so. */
  ghost predicate Served(s: State, wanted: Entries, i: string)
    requires i in wanted
  {
    i in s.journal && s.journal[i] == wanted[i] && Carries(At(s.kernel, wanted[i].0), wanted[i].0, wanted[i].1)
  }

  lemma ServedIsKept(s: State, wanted: Entries, i: string)
    requires i in wanted
    ensures Served(s, wanted, i) <==> Kept(i, s, wanted)
  {
    CarriedIsOwned(s.kernel, wanted[i].0, wanted[i].1);
    hide Carries, OwnedAt;
  }

  lemma FreeIsUnclaimed(was: State, d: nat)
    requires Free(At(was.kernel, d))
    ensures !JournaledAndOwned(was, d)
  {
  }

  /** When nothing fails, a run finishes if each wanted interface is free or served already. */
  lemma FreeIsShaped(was: State, s: State, wanted: Entries, r: Ending)
    requires Reconciled(was, s, wanted, r) && (r == Done || Blocked(was, s, wanted))
    requires forall i | i in wanted :: Served(was, wanted, i) || Free(At(was.kernel, wanted[i].0))
    ensures r == Done
  {
    if r != Done {
      var i :| i in wanted && !Kept(i, was, wanted) && BlockedAt(was, s, wanted[i].0);
      var d := wanted[i].0;
      ServedIsKept(was, wanted, i);
      FreeIsUnclaimed(was, d);
      FreeIsVacant(At(was.kernel, d));
      assert false;
    }
  }

  /** When nothing fails, a run that does not finish has met a wanted, unserved interface that is not free. */
  lemma UnfinishedMeansOccupied(was: State, s: State, wanted: Entries, r: Ending)
    requires Reconciled(was, s, wanted, r) && (r == Done || Blocked(was, s, wanted)) && r != Done
    ensures exists i :: i in wanted && !Served(was, wanted, i) && !Free(At(s.kernel, wanted[i].0))
  {
    var i :| i in wanted && !Kept(i, was, wanted) && BlockedAt(was, s, wanted[i].0);
    ServedIsKept(was, wanted, i);
    FreeIsVacant(At(s.kernel, wanted[i].0));
  }

  /** A wanted interface that is occupied by somebody else makes the run fail, and nothing on it changes. */
  lemma OccupiedIsRefused(was: State, s: State, wanted: Entries, r: Ending, i: string)
    requires Reconciled(was, s, wanted, r) && i in wanted
    requires var d := wanted[i].0;
      !Claimed(was, d) && !Free(At(was.kernel, d)) && !Carries(At(was.kernel, d), d, wanted[i].1)
    ensures r != Done && At(s.kernel, wanted[i].0) == At(was.kernel, wanted[i].0)
  {
    CustomIsPreserved(was, s, wanted, r, wanted[i].0);
    if r == Done {
      DoneMeansShaped(was, s, wanted);
    }
  }

  /** A claimed root is never lost: it is still claimed or no longer there, and a finished cleanup has removed it. */
  lemma ClaimsAreKept(was: State, s: State, wanted: Entries, r: Ending, i: string)
    requires Reconciled(was, s, wanted, r) && i in was.journal
    requires Carries(At(was.kernel, was.journal[i].0), was.journal[i].0, was.journal[i].1)
    ensures var (d, o) := was.journal[i];
      && ((exists j :: j in s.journal && s.journal[j] == (d, o)) || !Carries(At(s.kernel, d), d, o))
      && (r == Done && wanted == map[] ==> !Carries(At(s.kernel, d), d, o))
  {
    var (d, o) := was.journal[i];
    CarriedIsOwned(was.kernel, d, o);
    CarriedIsOwned(s.kernel, d, o);
    assert Entry(was.journal, i, was.kernel);
    hide Carries, OwnedAt, Covered, OthersAlone, Honest, KeepsInForce;
  }

  /** sync: one reconcile, in these terms. */
  method Sync(h: Host, wanted: Entries) returns (r: Ending)
    requires Covered(h.Now()) && DistinctIndexes(wanted)
    modifies h
    ensures Covered(h.Now())
    ensures forall d | !Claimed(old(h.Now()), d) && !Free(At(old(h.kernel), d)) ::
      At(h.kernel, d) == At(old(h.kernel), d)
    ensures r == Done ==>
      && h.journal == wanted
      && forall i | i in wanted :: Carries(At(h.kernel, wanted[i].0), wanted[i].0, wanted[i].1)
    ensures h.troubles == old(h.troubles) ==>
      && ((forall i | i in wanted :: Served(old(h.Now()), wanted, i) || Free(At(old(h.kernel), wanted[i].0))) ==>
            r == Done)
      && (r != Done ==>
            exists i :: i in wanted && !Served(old(h.Now()), wanted, i) && !Free(At(h.kernel, wanted[i].0)))
  {
    ghost var was := h.Now();
    r := h.Reconcile(wanted);
    ghost var s := h.Now();
    SyncIs(was, s, wanted, r);
    hide Reconciled, Served, Free, Claimed, Carries, Blocked, Covered;
    if h.troubles == old(h.troubles) {
      if forall i | i in wanted :: Served(was, wanted, i) || Free(At(was.kernel, wanted[i].0)) {
        FreeIsShaped(was, s, wanted, r);
      }
      if r != Done {
        UnfinishedMeansOccupied(was, s, wanted, r);
      }
    }
  }

  lemma SyncIs(was: State, s: State, wanted: Entries, r: Ending)
    requires Reconciled(was, s, wanted, r)
    ensures Covered(s)
    ensures forall d | !Claimed(was, d) && !Free(At(was.kernel, d)) :: At(s.kernel, d) == At(was.kernel, d)
    ensures r == Done ==>
      && s.journal == wanted
      && forall i | i in wanted :: Carries(At(s.kernel, wanted[i].0), wanted[i].0, wanted[i].1)
  {
    forall d | !Claimed(was, d) && !Free(At(was.kernel, d))
      ensures At(s.kernel, d) == At(was.kernel, d)
    {
      CustomIsPreserved(was, s, wanted, r, d);
    }
    if r == Done {
      DoneMeansShaped(was, s, wanted);
    }
  }

  // ------------------------------------------------------------------ histories

  /** Somebody else's: no root with our handle and kind, and a root or a child that is no kernel default. */
  ghost predicate Foreign(d: Device) {
    && (d.root.Some? ==> d.root.value.handle != 0x7e10_0000 || d.root.value.kind != Spelled("cake"))
    && !Free(d)
  }

  /** Over any history of runs, each cut anywhere, what is somebody else's stays until somebody changes it. */
  lemma {:induction false} ForeignStays(states: seq<State>, events: seq<Event>, d: nat, n: nat)
    requires Path(states, events) && n < |states| && Foreign(At(states[0].kernel, d))
    requires forall k | 0 <= k < n :: events[k].Change? ==> events[k].index != d
    ensures At(states[n].kernel, d) == At(states[0].kernel, d)
  {
    if n > 0 {
      ForeignStays(states, events, d, n - 1);
      var s, e, s' := states[n - 1], events[n - 1], states[n];
      assert Stepped(s, e, s');
      hide Path;
      if e.Run? {
        var r :| Reconciled(s, s', e.wanted, r);
        CustomIsPreserved(s, s', e.wanted, r, d);
      }
    }
  }
}
