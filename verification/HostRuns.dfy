/** Which pairs the operator leaves behind on the router, over every run of edits and reconciles. */
module HostRuns {
  import opened Text
  import opened Validation
  import opened HostTable
  import opened HostRecords
  import opened Terminal

  /** A record still takes care of a pair: live, of every pair of its name; deleted, of its own pair only. */
  predicate Holds(r: Record, p: Pair) { p.name == Lower(r.hostname) && (r.deleting ==> p.addr == r.address) }

  predicate Held(w: World, p: Pair) { exists k <- w.recs :: Holds(w.recs[k], p) }

  predicate HeldByOther(w: World, k: Key, p: Pair) { exists j <- w.recs :: j != k && Holds(w.recs[j], p) }

  /** Every pair that was not there from the start was written for a valid host and is taken care of. */
  predicate NoneStranded(w: World, foreign: set<Pair>) {
    forall p <- w.pairs :: p in foreign || (HostIpOk(p.name, p.addr) && Held(w, p))
  }

  /** Only this record takes care of the pair. */
  predicate Alone(w: World, k: Key, p: Pair, foreign: set<Pair>)
    requires k in w.recs
  {
    p !in foreign && Holds(w.recs[k], p) && !HeldByOther(w, k, p)
  }

  /**
   * What a user has to respect: a record that alone takes care of pairs is not moved to another name,
   * and not deleted, while those pairs are others than its present one or it is not yet reconciled.
   */
  predicate Respectful(w: World, s: Step, foreign: set<Pair>) {
    match s
    case Create(_, _, _) => true
    case Edit(k, h, a) =>
      k in w.recs ==>
        || (Lower(h) == Lower(w.recs[k].hostname) && (w.recs[k].deleting ==> a == w.recs[k].address))
        || forall p <- w.pairs :: !Alone(w, k, p, foreign)
    case Delete(k) =>
      k in w.recs ==>
        forall p <- w.pairs :: Alone(w, k, p, foreign) ==> w.recs[k].finalizer && p.addr == w.recs[k].address
    case Reconcile(_, _) => true
  }

  predicate AllRespectful(w: World, steps: seq<Step>, max: int, foreign: set<Pair>)
    decreases |steps|
  {
    steps == []
    || (Respectful(w, steps[0], foreign) && AllRespectful(Do(w, steps[0], max), steps[1..], max, foreign))
  }

  function Run(w: World, steps: seq<Step>, max: int): World
    decreases |steps|
  {
    if steps == [] then w else Run(Do(w, steps[0], max), steps[1..], max)
  }

  /** A user's step keeps every pair taken care of exactly when it is respectful. */
  lemma UserStepExact(w: World, s: Step, max: int, foreign: set<Pair>)
    requires NoneStranded(w, foreign) && !s.Reconcile?
    ensures NoneStranded(Do(w, s, max), foreign) <==> Respectful(w, s, foreign)
  {
    hide HostIpOk, Lower;
    var w' := Do(w, s, max);
    if s.Create? {
      forall p | p in w'.pairs && p !in foreign ensures Held(w', p) {
        var j :| j in w.recs && Holds(w.recs[j], p);
        assert Holds(w'.recs[j], p);
      }
    } else if s.k in w.recs {
      if Respectful(w, s, foreign) {
        forall p | p in w'.pairs && p !in foreign ensures Held(w', p) { StillHeld(w, s, max, foreign, p); }
      } else {
        var p :| p in w.pairs && Alone(w, s.k, p, foreign)
                 && (s.k in w'.recs ==> !Holds(w'.recs[s.k], p));
        assert !Held(w', p);
      }
    }
  }

  lemma StillHeld(w: World, s: Step, max: int, foreign: set<Pair>, p: Pair)
    requires NoneStranded(w, foreign) && (s.Edit? || s.Delete?) && s.k in w.recs && Respectful(w, s, foreign)
    requires p in w.pairs && p !in foreign
    ensures Held(Do(w, s, max), p)
  {
    hide HostIpOk, Lower;
    var w' := Do(w, s, max);
    if HeldByOther(w, s.k, p) {
      var j :| j in w.recs && j != s.k && Holds(w.recs[j], p);
      assert Holds(w'.recs[j], p);
    } else {
      assert Alone(w, s.k, p, foreign);
      assert Holds(w'.recs[s.k], p);
    }
  }

  /** A reconcile adds no pair but the valid one its live record asks for. */
  lemma ReconcileAdds(w: World, k: Key, f: Faults, max: int, p: Pair)
    requires TableOk(w.pairs) && p in Reconciled(w, k, f, max).pairs && p !in w.pairs
    ensures k in w.recs && !w.recs[k].deleting && HostIpOk(w.recs[k].hostname, w.recs[k].address)
    ensures p == Pair(Lower(w.recs[k].hostname), w.recs[k].address)
  {
    hide Exec, HostIpOk, Sent, TableOk, ExecAll, Executed, Lower;
    ReconciledPairs(w, k, f, max);
    NoCommand(w.pairs);
    var cmds := Commands(w, k, f, max);
    if cmds != [] {
      var r := w.recs[k];
      ValidWords(r.hostname, r.address);
      if r.deleting {
        var line := [NoHostLine(r.hostname, r.address)];
        var i := ExecutedPrefix(f.session, line);
        RemovalOnlyRemoves(w.pairs, r.hostname, r.address, i);
      } else {
        var i := ExecutedPrefix(f.session, Sent(w.pairs, r.hostname, r.address));
        NeverLarger(w.pairs, r.hostname, r.address, i);
      }
    }
  }

  lemma RemovalOnlyRemoves(pairs: seq<Pair>, host: string, ip: string, i: nat)
    requires IsWord(host) && IsWord(ip) && i <= 1
    ensures forall p <- ExecAll(pairs, [NoHostLine(host, ip)][..i]) :: p in pairs
  {
    hide Exec, IsWord, NoHostLine;
    var line := NoHostLine(host, ip);
    ExecRemove(pairs, host, ip);
    WithoutShrinks(pairs, Lower(host), {ip});
    assert [line][..0] == [] && [line][..1] == [line];
    OneCommand(pairs, line);
    NoCommand(pairs);
  }

  /** A reconcile leaves what every record takes care of as it is, unless the record is gone. */
  lemma ReconcileRecs(w: World, k: Key, f: Faults, max: int)
    ensures var w' := Reconciled(w, k, f, max);
            && (forall j <- w.recs | j != k || k in w'.recs :: j in w'.recs && w'.recs[j].hostname == w.recs[j].hostname
                  && w'.recs[j].address == w.recs[j].address && w'.recs[j].deleting == w.recs[j].deleting)
            && (k in w.recs && k !in w'.recs ==> w.recs[k].deleting)
  {
    hide HostIpOk, Exec, Sent, ExecAll, Commands;
  }

  lemma ReconcileKeeps(w: World, k: Key, f: Faults, max: int, foreign: set<Pair>)
    requires TableOk(w.pairs) && NoneStranded(w, foreign)
    ensures NoneStranded(Reconciled(w, k, f, max), foreign)
  {
    hide HostIpOk, TableOk, Reconciled, Lower;
    var w' := Reconciled(w, k, f, max);
    ReconcileRecs(w, k, f, max);
    forall p | p in w'.pairs && p !in foreign ensures HostIpOk(p.name, p.addr) && Held(w', p) {
      if p !in w.pairs {
        ReconcileAdds(w, k, f, max, p);
        ValidFolds(w.recs[k].hostname, w.recs[k].address);
        assert Holds(w'.recs[k], p);
      } else {
        var j :| j in w.recs && Holds(w.recs[j], p);
        if j == k && k !in w'.recs {
          ValidFolds(w.recs[k].hostname, w.recs[k].address);
          GoneMeansRemoved(w, k, f, max);
        }
        assert Holds(w'.recs[j], p);
      }
    }
  }

  lemma ValidFolds(host: string, ip: string)
    ensures HostIpOk(Lower(host), ip) <==> HostIpOk(host, ip)
  {
    HostnameFolds(host);
  }

  /**
   * Over every run of respectful edits and of reconciles that fail wherever they like, each pair the
   * operator wrote is taken care of by a record; with the last record gone only pairs are left that
   * were there from the start.
   */
  lemma {:induction false} NothingStranded(w: World, steps: seq<Step>, max: int, foreign: set<Pair>)
    requires TableOk(w.pairs) && NoneStranded(w, foreign) && AllRespectful(w, steps, max, foreign)
    ensures NoneStranded(Run(w, steps, max), foreign)
    ensures Run(w, steps, max).recs == map[] ==> forall p <- Run(w, steps, max).pairs :: p in foreign
    decreases |steps|
  {
    hide TableOk, NoneStranded, Do, Respectful, TablesDuring;
    if steps != [] {
      var s := steps[0];
      var w1 := Do(w, s, max);
      assert NoneStranded(w1, foreign) by {
        if s.Reconcile? {
          ReconcileKeeps(w, s.k, s.faults, max, foreign);
          DoReconcile(w, s, max);
        } else {
          UserStepExact(w, s, max, foreign);
        }
      }
      CapStep(w, s, max);
      StepEnds(w, s, max);
      var during := TablesDuring(w, s, max);
      assert during[|during| - 1] in during;
      NothingStranded(w1, steps[1..], max, foreign);
    } else {
      NobodyLeft(w, foreign);
    }
  }

  lemma DoReconcile(w: World, s: Step, max: int)
    requires s.Reconcile?
    ensures Do(w, s, max) == Reconciled(w, s.k, s.faults, max)
  {}

  lemma NobodyLeft(w: World, foreign: set<Pair>)
    requires NoneStranded(w, foreign)
    ensures w.recs == map[] ==> forall p <- w.pairs :: p in foreign
  {}

  // ----- how the promise fails, from a start with nothing at all -----

  const CALM := Faults(false, false, false, false, Whole)

  lemma RunSix(w: World, a: Step, b: Step, c: Step, d: Step, e: Step, f: Step, max: int)
    ensures Run(w, [a, b, c, d, e, f], max)
         == Do(Do(Do(Do(Do(Do(w, a, max), b, max), c, max), d, max), e, max), f, max)
  {
    hide Do;
    var w1 := Do(w, a, max);
    var w2 := Do(w1, b, max);
    var w3 := Do(w2, c, max);
    var w4 := Do(w3, d, max);
    var w5 := Do(w4, e, max);
    var tail := [e, f];
    assert [a, b, c, d, e, f][1..] == [b, c, d, e, f] && [b, c, d, e, f][1..] == [c, d, e, f];
    assert [c, d, e, f][1..] == [d, e, f] && [d, e, f][1..] == tail && tail[1..] == [f] && [f][1..] == [];
    assert Run(w5, [f], max) == Do(w5, f, max) && Run(w4, tail, max) == Run(w5, [f], max);
    assert Run(w3, [d, e, f], max) == Run(w4, tail, max) && Run(w2, [c, d, e, f], max) == Run(w3, [d, e, f], max);
    assert Run(w1, [b, c, d, e, f], max) == Run(w2, [c, d, e, f], max);
  }

  /** The first pair on an empty table, and the removal of another one. */
  lemma FirstPair(host: string, ip: string, other: string)
    requires HostIpOk(host, ip) && HostIpOk(host, other) && ip != other
    ensures var pairs := [Pair(Lower(host), ip)];
            && ExecAll([], Sent([], host, ip)) == pairs
            && ExecAll(pairs, [NoHostLine(host, other)]) == pairs
  {
    hide Exec, HostIpOk, IsWord, Lower;
    ValidWords(host, ip);
    ValidWords(host, other);
    var n, pairs := Lower(host), [Pair(Lower(host), ip)];
    assert AddrsOf([], n) == [] && Removals(host, ip, []) == [];
    assert Sent([], host, ip) == [AddLine(host, ip)];
    OneCommand([], AddLine(host, ip));
    ExecAdd([], host, ip);
    OneCommand(pairs, NoHostLine(host, other));
    ExecRemove(pairs, host, other);
    assert pairs[1..] == [] && Without([], n, {other}) == [];
  }

  /** A record whose new address is not yet reconciled is deleted: its old pair stays, with nobody left. */
  lemma EditThenDeleteStrands(k: Key, host: string, ip: string, other: string, max: int)
    requires HostIpOk(host, ip) && HostIpOk(host, other) && ip != other && max > 0
    ensures var start := World(map[], []);
            Run(start, [Create(k, host, ip), Reconcile(k, CALM), Reconcile(k, CALM),
                        Edit(k, host, other), Delete(k), Reconcile(k, CALM)], max)
            == World(map[], [Pair(Lower(host), ip)])
  {
    hide Exec, HostIpOk, ExecAll, Sent, NoHostLine, Lower;
    FirstPair(host, ip, other);
    var start, pairs := World(map[], []), [Pair(Lower(host), ip)];
    RunSix(start, Create(k, host, ip), Reconcile(k, CALM), Reconcile(k, CALM), Edit(k, host, other), Delete(k),
           Reconcile(k, CALM), max);
    var r := Record(true, false, host, ip, false, Unknown);
    var w2 := World(map[k := r], []);
    var w3 := World(map[k := r.(applied := true, reason := Applied)], pairs);
    var w5 := World(map[k := r.(applied := true, reason := Applied, address := other, deleting := true)], pairs);
    assert Do(Do(start, Create(k, host, ip), max), Reconcile(k, CALM), max) == w2 by { NoCommand([]); }
    assert Do(w2, Reconcile(k, CALM), max) == w3;
    assert Do(Do(w3, Edit(k, host, other), max), Delete(k), max) == w5;
    assert w5.recs - {k} == map[];
    assert Do(w5, Reconcile(k, CALM), max) == World(map[], pairs);
  }
}
