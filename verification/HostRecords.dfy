/**
 * The host-record actuator: a finalizer around the router's state and a cap on the number of
 * pairs. Router sessions may break off after any command.
 */
module HostRecords {
  import opened Text
  import opened Validation
  import opened HostTable
  import opened Terminal

  type Key = string

  datatype Reason = Unknown | LimitReached | ApplyFailed | Applied

  datatype Record = Record(
    finalizer: bool, deleting: bool, hostname: string, address: string,
    applied: bool, reason: Reason)

  datatype World = World(recs: map<Key, Record>, pairs: seq<Pair>)

  datatype Faults = Faults(update: bool, count: bool, has: bool, status: bool, session: Ending)

  /** The guard: the pair is missing and the table is full. */
  predicate Refuses(pairs: seq<Pair>, r: Record, max: int) {
    Pair(Lower(r.hostname), r.address) !in pairs && |pairs| >= max
  }

  /** The table commands one reconcile gets to execute. */
  function Commands(w: World, k: Key, f: Faults, max: int): seq<string> {
    if k !in w.recs || !w.recs[k].finalizer then [] else
      var r := w.recs[k];
      if !HostIpOk(r.hostname, r.address) then []
      else if r.deleting then Executed(f.session, [NoHostLine(r.hostname, r.address)])
      else if f.count || f.has || Refuses(w.pairs, r, max) then []
      else Executed(f.session, Sent(w.pairs, r.hostname, r.address))
  }

  /** Whether the table operation of the reconcile reports success. */
  predicate Succeeds(w: World, r: Record, f: Faults) {
    if r.deleting then !HostIpOk(r.hostname, r.address) || f.session.Whole?
    else HostIpOk(r.hostname, r.address)
         && (f.session.Whole? || (f.session != Broken(0) && Sent(w.pairs, r.hostname, r.address) == []))
  }

  function Reconciled(w: World, k: Key, f: Faults, max: int): World {
    if k !in w.recs then w else
      var r := w.recs[k];
      var pairs := ExecAll(w.pairs, Commands(w, k, f, max));
      if r.deleting then
        if !r.finalizer then w
        else if !Succeeds(w, r, f) || f.update then World(w.recs, pairs)
        else World(w.recs - {k}, pairs)
      else if !r.finalizer then
        if f.update then w else World(w.recs[k := r.(finalizer := true)], w.pairs)
      else if f.count || f.has then w
      else if Refuses(w.pairs, r, max) then
        if f.status then w else World(w.recs[k := r.(applied := false, reason := LimitReached)], w.pairs)
      else if f.status then World(w.recs, pairs)
      else if !Succeeds(w, r, f) then World(w.recs[k := r.(reason := ApplyFailed)], pairs)
      else World(w.recs[k := r.(applied := true, reason := Applied)], pairs)
  }

  class Reconciler {
    const max: int
    var recs: map<Key, Record>
    var pairs: seq<Pair>

    ghost function State(): World
      reads this
    {
      World(recs, pairs)
    }

    /** Runs a command list in one session. */
    method Run(cmds: seq<string>, session: Ending) returns (ok: bool)
      modifies this`pairs
      ensures pairs == ExecAll(old(pairs), Executed(session, cmds))
      ensures ok <==> session.Whole?
    {
      hide Exec;
      var n := if session.Whole? || session.after > |cmds| then |cmds| else session.after;
      ghost var lines := Executed(session, cmds);
      assert lines == cmds[..n];
      for i := 0 to n
        invariant ExecAll(pairs, lines[i..]) == ExecAll(old(pairs), lines)
      {
        assert lines[i..][1..] == lines[i + 1..];
        pairs := Exec(pairs, cmds[i]);
      }
      ok := session.Whole?;
    }

    method EnsureHost(host: string, ip: string, session: Ending) returns (ok: bool)
      modifies this`pairs
      ensures ok <==> HostIpOk(host, ip)
                      && (session.Whole? || (session != Broken(0) && Sent(old(pairs), host, ip) == []))
      ensures pairs == if HostIpOk(host, ip) then ExecAll(old(pairs), Executed(session, Sent(old(pairs), host, ip)))
                       else old(pairs)
    {
      hide Exec, HostIpOk;
      if !HostIpOk(host, ip) { return false; }
      if session == Broken(0) { return false; }
      var cmds := BuildHostCommands(host, ip, AddrsOf(pairs, Lower(host)));
      if cmds == [] { return true; }
      ok := Run(cmds, session);
    }

    method DeleteHost(host: string, ip: string, session: Ending) returns (ok: bool)
      modifies this`pairs
      ensures ok <==> !HostIpOk(host, ip) || session.Whole?
      ensures pairs == if HostIpOk(host, ip) then ExecAll(old(pairs), Executed(session, [NoHostLine(host, ip)]))
                       else old(pairs)
    {
      if !HostIpOk(host, ip) { return true; }
      ok := Run([NoHostLine(host, ip)], session);
    }

    method Reconcile(k: Key, f: Faults)
      modifies this
      ensures State() == Reconciled(old(State()), k, f, max)
    {
      hide Exec, HostIpOk, Sent;
      if k !in recs { return; }
      var rec := recs[k];
      if rec.deleting {
        if rec.finalizer {
          var ok := DeleteHost(rec.hostname, rec.address, f.session);
          if !ok || f.update { return; }
          recs := recs - {k};
        }
        return;
      }
      if !rec.finalizer {
        if !f.update { recs := recs[k := rec.(finalizer := true)]; }
        return;
      }
      if f.count { return; }
      var count := |pairs|;
      if f.has { return; }
      var exists_ := Pair(Lower(rec.hostname), rec.address) in pairs;
      if !exists_ && count >= max {
        if !f.status { recs := recs[k := rec.(applied := false, reason := LimitReached)]; }
        return;
      }
      var ok := EnsureHost(rec.hostname, rec.address, f.session);
      if f.status { return; }
      recs := recs[k := if ok then rec.(applied := true, reason := Applied) else rec.(reason := ApplyFailed)];
    }
  }

  // ----- the cap -----

  datatype Step =
    | Create(k: Key, hostname: string, address: string)
    | Edit(k: Key, hostname: string, address: string)
    | Delete(k: Key)
    | Reconcile(k: Key, faults: Faults)

  function Do(w: World, s: Step, max: int): World {
    match s
    case Create(k, h, a) =>
      if k in w.recs then w else w.(recs := w.recs[k := Record(false, false, h, a, false, Unknown)])
    case Edit(k, h, a) =>
      if k in w.recs then w.(recs := w.recs[k := w.recs[k].(hostname := h, address := a)]) else w
    case Delete(k) =>
      if k !in w.recs then w
      else if w.recs[k].finalizer then w.(recs := w.recs[k := w.recs[k].(deleting := true)])
      else w.(recs := w.recs - {k})
    case Reconcile(k, f) => Reconciled(w, k, f, max)
  }

  /** The table before, between and after the commands of a step. */
  function TablesDuring(w: World, s: Step, max: int): seq<seq<Pair>> {
    var cmds := if s.Reconcile? then Commands(w, s.k, s.faults, max) else [];
    seq(|cmds| + 1, i requires 0 <= i <= |cmds| => ExecAll(w.pairs, cmds[..i]))
  }

  /** Every table a run goes through. */
  function Tables(w: World, steps: seq<Step>, max: int): seq<seq<Pair>>
    decreases |steps|
  {
    if steps == [] then [w.pairs]
    else TablesDuring(w, steps[0], max) + Tables(Do(w, steps[0], max), steps[1..], max)
  }

  function Larger(a: int, b: int): int { if a < b then b else a }

  lemma ReconciledPairs(w: World, k: Key, f: Faults, max: int)
    ensures Reconciled(w, k, f, max).pairs == ExecAll(w.pairs, Commands(w, k, f, max))
  {
    hide HostIpOk, Exec, Sent;
  }

  lemma ExecutedIsPrefix(e: Ending, cmds: seq<string>, i: nat)
    requires i <= |Executed(e, cmds)|
    ensures i <= |cmds| && Executed(e, cmds)[..i] == cmds[..i]
  {}

  /** Between any two commands of one reconcile the table respects the cap or its former size. */
  lemma CapWithinReconcile(w: World, k: Key, f: Faults, max: int, i: nat)
    requires TableOk(w.pairs) && i <= |Commands(w, k, f, max)|
    ensures var t := ExecAll(w.pairs, Commands(w, k, f, max)[..i]);
            TableOk(t) && |t| <= Larger(|w.pairs|, max)
  {
    hide Exec, Executed, Sent, TableOk, HostIpOk;
    var cmds := Commands(w, k, f, max);
    if cmds == [] {
      assert cmds[..i] == [];
    } else {
      var r := w.recs[k];
      assert IsWord(r.hostname) && IsWord(r.address) by { ValidWords(r.hostname, r.address); }
      if r.deleting {
        var removal := [NoHostLine(r.hostname, r.address)];
        ExecutedIsPrefix(f.session, removal, i);
        OneRemoval(w.pairs, r.hostname, r.address, i);
      } else {
        ExecutedIsPrefix(f.session, Sent(w.pairs, r.hostname, r.address), i);
        NeverLarger(w.pairs, r.hostname, r.address, i);
      }
    }
  }

  lemma ValidWords(host: string, ip: string)
    requires HostIpOk(host, ip)
    ensures IsWord(host) && IsWord(ip)
  {
    CheckedIsWord(host);
    CheckedIsWord(ip);
  }

  lemma OneRemoval(pairs: seq<Pair>, host: string, ip: string, i: nat)
    requires TableOk(pairs) && IsWord(host) && IsWord(ip) && i <= 1
    ensures var t := ExecAll(pairs, [NoHostLine(host, ip)][..i]);
            TableOk(t) && |t| <= |pairs|
  {
    hide Exec, IsWord, NoHostLine;
    var line := NoHostLine(host, ip);
    ExecRemove(pairs, host, ip);
    WithoutShrinks(pairs, Lower(host), {ip});
    WithoutKeepsOk(pairs, Lower(host), {ip});
    assert [line][..0] == [] && [line][..1] == [line] && [line][1..] == [];
    assert ExecAll(pairs, [line]) == Exec(pairs, line);
  }

  /** The end of a step is the last table of the step. */
  lemma StepEnds(w: World, s: Step, max: int)
    ensures var d := TablesDuring(w, s, max);
            d != [] && d[|d| - 1] == Do(w, s, max).pairs
  {
    hide HostIpOk, Exec, Sent, ExecAll, Reconciled;
    if s.Reconcile? {
      var cmds := Commands(w, s.k, s.faults, max);
      ReconciledPairs(w, s.k, s.faults, max);
      assert cmds[..|cmds|] == cmds;
    } else {
      var none: seq<string> := [];
      assert none[..0] == none;
      NoCommand(w.pairs);
    }
  }

  lemma NoCommand(pairs: seq<Pair>)
    ensures ExecAll(pairs, []) == pairs
  {}

  lemma CapStep(w: World, s: Step, max: int)
    requires TableOk(w.pairs)
    ensures forall t <- TablesDuring(w, s, max) :: TableOk(t) && |t| <= Larger(|w.pairs|, max)
  {
    hide Exec, TableOk, ExecAll, HostIpOk, Commands;
    if s.Reconcile? {
      forall i | 0 <= i <= |Commands(w, s.k, s.faults, max)|
        ensures var t := ExecAll(w.pairs, Commands(w, s.k, s.faults, max)[..i]);
                TableOk(t) && |t| <= Larger(|w.pairs|, max)
      {
        CapWithinReconcile(w, s.k, s.faults, max, i);
      }
    } else {
      var none: seq<string> := [];
      assert none[..0] == none;
      NoCommand(w.pairs);
    }
  }

  /**
   * Over every run of record edits and reconciles, with sessions breaking off anywhere, no table
   * the router goes through is larger than the cap or than the table it started with.
   */
  lemma {:induction false} CapHolds(w: World, steps: seq<Step>, max: int)
    requires TableOk(w.pairs)
    ensures forall t <- Tables(w, steps, max) :: TableOk(t) && |t| <= Larger(|w.pairs|, max)
    decreases |steps|
  {
    hide TableOk, Do, TablesDuring;
    if steps != [] {
      var during := TablesDuring(w, steps[0], max);
      CapStep(w, steps[0], max);
      StepEnds(w, steps[0], max);
      assert during[|during| - 1] in during;
      CapHolds(Do(w, steps[0], max), steps[1..], max);
    }
  }

  /**
   * The guard looks at the size only, so it also refuses a record whose name already has addresses:
   * applying it would exceed the cap exactly when the name has no more pairs than the table has
   * beyond the cap, which at a table just full means none at all.
   */
  lemma RefusalJustified(w: World, k: Key, max: int)
    requires TableOk(w.pairs) && k in w.recs
    requires HostIpOk(w.recs[k].hostname, w.recs[k].address)
    requires Refuses(w.pairs, w.recs[k], max)
    ensures var r := w.recs[k];
            |ExecAll(w.pairs, Sent(w.pairs, r.hostname, r.address))| > max
            <==> |AddrsOf(w.pairs, Lower(r.hostname))| <= |w.pairs| - max
  {
    hide Exec, TableOk, ExecAll, Sent, HostIpOk;
    ValidWords(w.recs[k].hostname, w.recs[k].address);
    HostConverges(w.pairs, w.recs[k].hostname, w.recs[k].address);
  }

  /** At a full table a plain change of address is refused although it would not grow the table. */
  lemma FullTableKeepsOldAddress(w: World, k: Key, f: Faults, max: int, former: string)
    requires TableOk(w.pairs) && |w.pairs| == max
    requires k in w.recs && w.recs[k].finalizer && !w.recs[k].deleting
    requires HostIpOk(w.recs[k].hostname, w.recs[k].address)
    requires AddrsOf(w.pairs, Lower(w.recs[k].hostname)) == [former] && former != w.recs[k].address
    ensures Reconciled(w, k, f, max).pairs == w.pairs
    ensures |ExecAll(w.pairs, Sent(w.pairs, w.recs[k].hostname, w.recs[k].address))| == max
  {
    hide Exec, TableOk, ExecAll, Sent, HostIpOk;
    var r := w.recs[k];
    ValidWords(r.hostname, r.address);
    HostConverges(w.pairs, r.hostname, r.address);
    AddrsOfMember(w.pairs, Lower(r.hostname), r.address);
    ReconciledPairs(w, k, f, max);
    assert Refuses(w.pairs, r, max);
    NoCommand(w.pairs);
    assert Commands(w, k, f, max) == [];
  }

  // ----- the finalizer -----

  /** The table changes only for a record that already carries the finalizer. */
  lemma FinalizerFirst(w: World, k: Key, f: Faults, max: int)
    requires Reconciled(w, k, f, max).pairs != w.pairs
    ensures k in w.recs && w.recs[k].finalizer
  {
    hide Exec, Sent, HostIpOk, ExecAll;
    NoCommand(w.pairs);
    ReconciledPairs(w, k, f, max);
  }

  /**
   * A record goes away only once its own pair is off the router; its name is then gone from the
   * router exactly when the name had no other address.
   */
  lemma GoneMeansRemoved(w: World, k: Key, f: Faults, max: int)
    requires TableOk(w.pairs) && k in w.recs && k !in Reconciled(w, k, f, max).recs
    requires HostIpOk(w.recs[k].hostname, w.recs[k].address)
    ensures var r, pairs' := w.recs[k], Reconciled(w, k, f, max).pairs;
            var n := Lower(r.hostname);
            && Pair(n, r.address) !in pairs'
            && (forall m | m != n :: AddrsOf(pairs', m) == AddrsOf(w.pairs, m))
            && (AddrsOf(pairs', n) == [] <==> forall a <- AddrsOf(w.pairs, n) :: a == r.address)
  {
    hide Exec, TableOk, HostIpOk, Sent, Words;
    var r := w.recs[k];
    var n, line := Lower(r.hostname), NoHostLine(r.hostname, r.address);
    ValidWords(r.hostname, r.address);
    ReconciledPairs(w, k, f, max);
    assert r.deleting && f.session.Whole? && Commands(w, k, f, max) == [line];
    assert [line][1..] == [];
    assert ExecAll(w.pairs, [line]) == Exec(w.pairs, line);
    ExecRemove(w.pairs, r.hostname, r.address);
    WithoutShrinks(w.pairs, n, {r.address});
    var pairs' := Without(w.pairs, n, {r.address});
    AddrsWithout(w.pairs, n, {r.address}, n);
    forall m ensures m != n ==> AddrsOf(pairs', m) == AddrsOf(w.pairs, m) {
      AddrsWithout(w.pairs, n, {r.address}, m);
    }
    assert AddrsOf(pairs', n) != [] ==> AddrsOf(pairs', n)[0] in AddrsOf(pairs', n);
  }
}
