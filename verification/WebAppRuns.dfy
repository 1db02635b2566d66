/** What every interleaving of user edits and reconciles keeps in the web-app protocol. */
module WebAppRuns {
  import opened Text
  import opened Validation
  import opened Proxies
  import opened RouterCli
  import opened Specs
  import opened Terminal
  import opened WebApps

  datatype Step =
    | Create(u: Uid, spec: Spec)
    | Edit(u: Uid, spec: Spec)
    | Delete(u: Uid)
    | Reconcile(u: Uid, faults: Faults)

  /** One step; a step on an object that is not there, or a second creation, does nothing. */
  function Do(w: World, s: Step, zone: string): World {
    match s
    case Create(u, spec) =>
      if u in w.objs then w else w.(objs := w.objs[u := App(false, false, spec, false, "")])
    case Edit(u, spec) =>
      if u in w.objs then w.(objs := w.objs[u := w.objs[u].(spec := spec)]) else w
    case Delete(u) =>
      if u !in w.objs then w
      else if w.objs[u].finalizer then w.(objs := w.objs[u := w.objs[u].(deleting := true)])
      else w.(objs := w.objs - {u})
    case Reconcile(u, f) => Reconciled(w, u, f, zone)
  }

  function Run(w: World, steps: seq<Step>, zone: string): World
    decreases |steps|
  {
    if steps == [] then w else Run(Do(w, steps[0], zone), steps[1..], zone)
  }

  // ----- what the parts of a reconcile can change -----

  predicate SameAt(w: World, w': World, n: string) {
    && (n in w.table <==> n in w'.table) && (n in w.table ==> w.table[n] == w'.table[n])
    && (n in w.writer <==> n in w'.writer) && (n in w.writer ==> w.writer[n] == w'.writer[n])
  }

  lemma PublishEffect(w: World, spec: Spec, f: Faults, zone: string)
    ensures var (w1, ok) := Publish(w, spec, f, zone);
            && w1.objs == w.objs
            && (forall n | n != spec.name :: SameAt(w, w1, n))
            && (w1 == w || (spec.name in w1.table && spec.name in w1.writer && NameOk(spec.name)
                            && w1.writer[spec.name] == spec.domain))
            && (ok ==> spec.name in w1.table)
            && (spec.name in w.table ==> spec.name in w1.table)
  {
    hide NeedsWrite, ExecAll, EnsureCommands, EqualFold;
    var p := ProxyFromSpec(spec);
    if !Refused(p, zone) && f.publish != Broken(0) && NeedsWrite(w.table, p, f.mask) {
      var c := Cli(Top, w.table, map[]);
      var k := ExecutedPrefix(f.publish, EnsureCommands(p));
      CommandCount(p);
      ExecPrefix(c, p, k);
    } else if !NeedsWrite(w.table, p, f.mask) {
      NoWriteMeansPresent(w.table, p, f.mask);
    }
  }

  lemma NoWriteMeansPresent(t: map<string, Proxy>, p: Proxy, m: Mask)
    requires !NeedsWrite(t, p, m)
    ensures p.name in t
  {}

  lemma ReleaseEffect(w: World, u: Uid, name: string, f: Faults)
    ensures var (w1, ok) := Release(w, u, name, f);
            && w1.objs == w.objs
            && (forall n | n != name :: SameAt(w, w1, n))
            && (w1 == w || (name != "" && name !in w1.table && name !in w1.writer && ClaimantsOf(w.objs, name, u) == {}))
            && (ok && name in w1.writer && NameOk(name) ==> ClaimantsOf(w.objs, name, u) != {})
  {
    assert !NameOk("");
    hide NameOk;
  }

  // ----- no stranded entries -----

  /** An object keeps track of an entry: it will still give it back, or still asks for it. */
  predicate Holds(a: App, n: string) {
    if a.deleting then Target(a) == n else a.spec.name == n || a.appliedName == n
  }

  predicate Held(w: World, n: string) { exists u <- w.objs :: Holds(w.objs[u], n) }

  predicate HeldByOther(w: World, u: Uid, n: string) {
    exists v <- w.objs :: v != u && Holds(w.objs[v], n)
  }

  /** Every entry the operator wrote is still tracked by some object. */
  predicate NoneStranded(w: World) {
    forall n <- w.writer :: NameOk(n) && Held(w, n)
  }

  /**
   * What a user has to respect: an object is not renamed or deleted while it alone tracks an entry
   * that it has not recorded as applied.
   */
  predicate Respectful(w: World, s: Step) {
    match s
    case Create(_, _) => true
    case Edit(u, spec) =>
      u in w.objs ==>
        var a := w.objs[u];
        a.spec.name == spec.name || a.appliedName == a.spec.name || (a.deleting && a.appliedName != "")
        || a.spec.name !in w.writer || HeldByOther(w, u, a.spec.name)
    case Delete(u) =>
      u in w.objs ==>
        var a := w.objs[u];
        if a.finalizer then
          a.deleting || a.appliedName == "" || a.appliedName == a.spec.name
          || a.spec.name !in w.writer || HeldByOther(w, u, a.spec.name)
        else
          forall n | n in w.writer && Holds(a, n) :: HeldByOther(w, u, n)
    case Reconcile(_, _) => true
  }

  predicate AllRespectful(w: World, steps: seq<Step>, zone: string)
    decreases |steps|
  {
    steps == [] || (Respectful(w, steps[0]) && AllRespectful(Do(w, steps[0], zone), steps[1..], zone))
  }

  lemma HeldAgain(w: World, w': World, u: Uid, n: string)
    requires Held(w, n)
    requires forall v <- w.objs | v != u :: v in w'.objs && w'.objs[v] == w.objs[v]
    requires u in w.objs && Holds(w.objs[u], n) ==> Held(w', n)
    ensures Held(w', n)
  {
    var v :| v in w.objs && Holds(w.objs[v], n);
    if v != u { assert w'.objs[v] == w.objs[v]; }
  }

  lemma ClaimantHolds(w: World, w': World, u: Uid, n: string)
    requires ClaimantsOf(w.objs, n, u) != {}
    requires forall v <- w.objs | v != u :: v in w'.objs && w'.objs[v] == w.objs[v]
    ensures Held(w', n)
  {
    var v :| v in ClaimantsOf(w.objs, n, u);
    assert Holds(w'.objs[v], n);
  }

  lemma FinishKeeps(w: World, u: Uid, f: Faults)
    requires NoneStranded(w) && u in w.objs && w.objs[u].deleting
    ensures NoneStranded(Finish(w, u, f))
  {
    hide Release, NameOk;
    var a := w.objs[u];
    var w' := Finish(w, u, f);
    ReleaseEffect(w, u, Target(a), f);
    var (w1, ok) := Release(w, u, Target(a), f);
    forall n | n in w'.writer ensures NameOk(n) && Held(w', n) {
      assert n in w.writer by { if n != Target(a) { assert SameAt(w, w1, n); } }
      assert NameOk(n);
      if w'.objs == w.objs {
        HeldAgain(w, w', u, n);
      } else if Holds(a, n) {
        ClaimantHolds(w, w', u, n);
      } else {
        HeldAgain(w, w', u, n);
      }
    }
  }

  /** What `Upheld` does to the objects. */
  lemma UpheldObjects(w: World, u: Uid, f: Faults, zone: string)
    requires u in w.objs
    ensures var a, w' := w.objs[u], Upheld(w, u, f, zone);
            && w'.objs.Keys == w.objs.Keys
            && (forall v <- w.objs | v != u :: w'.objs[v] == w.objs[v])
            && w'.objs[u].spec == a.spec && w'.objs[u].deleting == a.deleting
            && w'.objs[u].finalizer == a.finalizer
            && (w'.objs[u].appliedName == a.appliedName || w'.objs[u].appliedName == a.spec.name)
  {
    hide Release, Publish;
    var a := w.objs[u];
    ReleaseEffect(w, u, a.appliedName, f);
    var w1 := if a.appliedName != a.spec.name then Release(w, u, a.appliedName, f).0 else w;
    PublishEffect(w1, a.spec, f, zone);
  }

  /** What `Upheld` does to the entries. */
  lemma UpheldEntries(w: World, u: Uid, f: Faults, zone: string)
    requires u in w.objs
    ensures var a, w' := w.objs[u], Upheld(w, u, f, zone);
            && (forall n | n != a.spec.name && n != a.appliedName :: SameAt(w, w', n))
            && (a.appliedName != a.spec.name ==>
                  SameAt(w, w', a.appliedName)
                  || (a.appliedName != "" && ClaimantsOf(w.objs, a.appliedName, u) == {}))
            && (SameAt(w, w', a.spec.name)
                || (a.spec.name in w'.table && a.spec.name in w'.writer && NameOk(a.spec.name)
                    && w'.writer[a.spec.name] == a.spec.domain))
            && (a.spec.name in w.table ==> a.spec.name in w'.table)
            && (a.appliedName in w'.writer ==> a.appliedName in w.writer || a.appliedName == a.spec.name)
  {
    hide Release, Publish, NameOk, ClaimantsOf;
    var a := w.objs[u];
    ReleaseEffect(w, u, a.appliedName, f);
    var (w1, released) := if a.appliedName != a.spec.name then Release(w, u, a.appliedName, f) else (w, true);
    PublishEffect(w1, a.spec, f, zone);
    var (w2, published) := Publish(w1, a.spec, f, zone);
    var w' := Upheld(w, u, f, zone);
    forall n | n != a.spec.name && n != a.appliedName ensures SameAt(w, w', n) {
      assert SameAt(w, w1, n) && (released ==> SameAt(w1, w2, n));
    }
    assert a.appliedName != a.spec.name ==>
        SameAt(w, w1, a.spec.name) && (released ==> SameAt(w1, w2, a.appliedName));
  }

  /** An old name given up by a completed rename is left on the router only to another claimant. */
  lemma UpheldHandsOver(w: World, u: Uid, f: Faults, zone: string)
    requires u in w.objs && w.objs[u].appliedName != w.objs[u].spec.name && NameOk(w.objs[u].appliedName)
    ensures var a, w' := w.objs[u], Upheld(w, u, f, zone);
            a.appliedName in w'.writer && u in w'.objs && w'.objs[u].appliedName == a.spec.name
            ==> ClaimantsOf(w.objs, a.appliedName, u) != {}
  {
    hide Release, Publish, NameOk, ClaimantsOf;
    var a := w.objs[u];
    ReleaseEffect(w, u, a.appliedName, f);
    var (w1, released) := Release(w, u, a.appliedName, f);
    PublishEffect(w1, a.spec, f, zone);
    assert SameAt(w1, Publish(w1, a.spec, f, zone).0, a.appliedName);
  }

  lemma UpheldKeeps(w: World, u: Uid, f: Faults, zone: string)
    requires NoneStranded(w) && u in w.objs && !w.objs[u].deleting
    ensures NoneStranded(Upheld(w, u, f, zone))
  {
    hide Upheld, NameOk;
    var a := w.objs[u];
    var w' := Upheld(w, u, f, zone);
    UpheldObjects(w, u, f, zone);
    UpheldEntries(w, u, f, zone);
    forall n | n in w'.writer ensures NameOk(n) && Held(w', n) {
      assert n != a.spec.name && n != a.appliedName ==> SameAt(w, w', n);
      if n == a.spec.name {
        assert Holds(w'.objs[u], n);
      } else if Holds(a, n) && w'.objs[u].appliedName != a.appliedName {
        UpheldHandsOver(w, u, f, zone);
        ClaimantHolds(w, w', u, n);
      } else {
        if Holds(a, n) { assert Holds(w'.objs[u], n); }
        HeldAgain(w, w', u, n);
      }
    }
  }

  lemma ReconcileKeeps(w: World, u: Uid, f: Faults, zone: string)
    requires NoneStranded(w)
    ensures NoneStranded(Reconciled(w, u, f, zone))
  {
    hide Finish, Upheld, NameOk, RivalsOf;
    if u in w.objs {
      var a := w.objs[u];
      if a.deleting && a.finalizer {
        FinishKeeps(w, u, f);
      } else if !a.deleting && a.finalizer && !f.rivalList && RivalsOf(w.objs, u, a.spec) == {} {
        UpheldKeeps(w, u, f, zone);
      } else {
        var w' := Reconciled(w, u, f, zone);
        forall n | n in w'.writer ensures NameOk(n) && Held(w', n) {
          if Holds(a, n) { assert Holds(w'.objs[u], n); }
          HeldAgain(w, w', u, n);
        }
      }
    }
  }

  /** A user's step keeps every entry tracked exactly when it is respectful. */
  lemma UserStepExact(w: World, s: Step, zone: string)
    requires NoneStranded(w) && !s.Reconcile?
    ensures NoneStranded(Do(w, s, zone)) <==> Respectful(w, s)
  {
    assert !NameOk("");
    hide NameOk;
    var w' := Do(w, s, zone);
    if s.Create? {
      forall n | n in w'.writer ensures Held(w', n) {
        var v :| v in w.objs && Holds(w.objs[v], n);
        assert Holds(w'.objs[v], n);
      }
    } else if s.u in w.objs {
      var a := w.objs[s.u];
      if Respectful(w, s) {
        forall n | n in w'.writer ensures Held(w', n) {
          if HeldByOther(w, s.u, n) {
            var v :| v in w.objs && v != s.u && Holds(w.objs[v], n);
            assert Holds(w'.objs[v], n);
          } else {
            assert Holds(a, n);
            assert Holds(w'.objs[s.u], n);
          }
        }
      } else {
        var n: string :| n in w.writer && Holds(a, n) && !HeldByOther(w, s.u, n)
                         && (s.u in w'.objs ==> !Holds(w'.objs[s.u], n));
        assert !Held(w', n);
      }
    }
  }

  /**
   * Over every run of respectful edits and of reconciles that fail wherever they like, each entry
   * the operator wrote is tracked by an object; once the last object is gone no such entry is left.
   */
  lemma {:induction false} NothingStranded(w: World, steps: seq<Step>, zone: string)
    requires NoneStranded(w) && AllRespectful(w, steps, zone)
    ensures NoneStranded(Run(w, steps, zone))
    ensures Run(w, steps, zone).objs == map[] ==> Run(w, steps, zone).writer == map[]
    decreases |steps|
  {
    hide NoneStranded, Respectful, Do;
    if steps != [] {
      var s := steps[0];
      assert NoneStranded(Do(w, s, zone)) by {
        if s.Reconcile? {
          ReconcileKeeps(w, s.u, s.faults, zone);
          DoReconcile(w, s, zone);
        } else {
          UserStepExact(w, s, zone);
        }
      }
      NothingStranded(Do(w, s, zone), steps[1..], zone);
    } else {
      NobodyLeft(w);
    }
  }

  lemma DoReconcile(w: World, s: Step, zone: string)
    requires s.Reconcile?
    ensures Do(w, s, zone) == Reconciled(w, s.u, s.faults, zone)
  {}

  lemma NobodyLeft(w: World)
    requires NoneStranded(w)
    ensures w.objs == map[] ==> w.writer == map[]
  {
    assert w.objs == map[] ==> forall n <- w.writer :: Held(w, n);
    assert w.writer.Keys == {} ==> w.writer == map[];
  }

  // ----- contested names are frozen -----

  predicate Touches(s: Step, u: Uid) { (s.Edit? || s.Delete?) && s.u == u }

  predicate Asks(w: World, u: Uid, n: string) {
    u in w.objs && !w.objs[u].deleting && w.objs[u].spec.name == n
  }

  /** Two live objects ask for n under domains that differ ignoring case. */
  predicate Contested(w: World, n: string, a: Uid, b: Uid) {
    Asks(w, a, n) && Asks(w, b, n) && !EqualFold(w.objs[a].spec.domain, w.objs[b].spec.domain)
  }

  /** A reconcile leaves the specification of every live object alone. */
  lemma ReconcileKeepsSpecs(w: World, u: Uid, f: Faults, zone: string, v: Uid)
    requires v in w.objs && !w.objs[v].deleting
    ensures var w' := Reconciled(w, u, f, zone);
            v in w'.objs && !w'.objs[v].deleting && w'.objs[v].spec == w.objs[v].spec
  {
    hide Release, Upheld, RivalsOf;
    if u in w.objs {
      ReleaseEffect(w, u, Target(w.objs[u]), f);
      UpheldObjects(w, u, f, zone);
    }
  }

  /** Only the entry asked for and the one recorded as applied are ever touched by a reconcile. */
  lemma ReconcileFrame(w: World, u: Uid, f: Faults, zone: string, n: string)
    ensures var w' := Reconciled(w, u, f, zone);
            SameAt(w, w', n)
            || (u in w.objs && !w.objs[u].deleting && w.objs[u].spec.name == n
                && RivalsOf(w.objs, u, w.objs[u].spec) == {}
                && n in w'.table && n in w'.writer && w'.writer[n] == w.objs[u].spec.domain)
            || (u in w.objs && ClaimantsOf(w.objs, n, u) == {} && !Asks(w, u, n)
                && n == Target(w.objs[u]))
  {
    hide Release, Upheld, NameOk;
    if u in w.objs {
      var a := w.objs[u];
      ReleaseEffect(w, u, Target(a), f);
      UpheldEntries(w, u, f, zone);
      var w' := Reconciled(w, u, f, zone);
      if !a.deleting && a.finalizer && !f.rivalList && RivalsOf(w.objs, u, a.spec) == {} {
        assert n != a.spec.name && n != a.appliedName ==> SameAt(w, w', n);
      } else if a.deleting && a.finalizer {
        var (w1, ok) := Release(w, u, Target(a), f);
        assert n != Target(a) ==> SameAt(w, w1, n);
      }
    }
  }

  /** Whoever asks for a contested name has a rival: folding case is transitive. */
  lemma RivalFound(w: World, u: Uid, n: string, a: Uid, b: Uid)
    requires Contested(w, n, a, b) && Asks(w, u, n)
    ensures RivalsOf(w.objs, u, w.objs[u].spec) != {}
  {
    var d := w.objs[u].spec.domain;
    if EqualFold(w.objs[a].spec.domain, d) {
      assert b in RivalsOf(w.objs, u, w.objs[u].spec);
    } else {
      assert a in RivalsOf(w.objs, u, w.objs[u].spec);
    }
  }

  lemma FrozenStep(w: World, s: Step, zone: string, n: string, a: Uid, b: Uid)
    requires Contested(w, n, a, b) && !Touches(s, a) && !Touches(s, b)
    ensures Contested(Do(w, s, zone), n, a, b) && SameAt(w, Do(w, s, zone), n)
  {
    hide Reconciled;
    if s.Reconcile? {
      ReconcileKeepsSpecs(w, s.u, s.faults, zone, a);
      ReconcileKeepsSpecs(w, s.u, s.faults, zone, b);
      ReconcileFrame(w, s.u, s.faults, zone, n);
      assert a != b;
      assert (if s.u == a then b else a) in ClaimantsOf(w.objs, n, s.u);
      if Asks(w, s.u, n) {
        RivalFound(w, s.u, n, a, b);
      }
    }
  }

  /**
   * While two live objects that nobody edits contest a name, no run of steps of any other objects,
   * nor of reconciles of any object at all, writes or removes that entry.
   */
  lemma {:induction false} ContestedIsFrozen(w: World, steps: seq<Step>, zone: string, n: string, a: Uid, b: Uid)
    requires Contested(w, n, a, b)
    requires forall s <- steps :: !Touches(s, a) && !Touches(s, b)
    ensures SameAt(w, Run(w, steps, zone), n)
    ensures Contested(Run(w, steps, zone), n, a, b)
    decreases |steps|
  {
    hide Do, Contested;
    if steps != [] {
      FrozenStep(w, steps[0], zone, n, a, b);
      ContestedIsFrozen(Do(w, steps[0], zone), steps[1..], zone, n, a, b);
    }
  }

  // ----- a published entry survives -----

  /** A live object has recorded its present name as applied. */
  predicate Recorded(w: World, u: Uid, n: string) { n != "" && Asks(w, u, n) && w.objs[u].appliedName == n }

  /** It has done so, and the entry is on the router. */
  predicate Published(w: World, u: Uid, n: string) { Recorded(w, u, n) && n in w.table }

  /** Every recorded name is there. */
  predicate AllRecordedThere(w: World) {
    forall u <- w.objs :: Recorded(w, u, w.objs[u].spec.name) ==> w.objs[u].spec.name in w.table
  }

  /**
   * A pending rename is undone after the entry under the old name is gone: the object then asks for
   * a name that it has on record and that is not there.
   */
  predicate RenamesBack(w: World, s: Step) {
    && s.Edit? && s.u in w.objs && !w.objs[s.u].deleting
    && s.spec.name == w.objs[s.u].appliedName != "" && s.spec.name !in w.table
  }

  predicate NoneRenamesBack(w: World, steps: seq<Step>, zone: string)
    decreases |steps|
  {
    steps == [] || (!RenamesBack(w, steps[0]) && NoneRenamesBack(Do(w, steps[0], zone), steps[1..], zone))
  }

  /** A user's step keeps every recorded name there exactly when it does not rename back. */
  lemma UserStepRecords(w: World, s: Step, zone: string)
    requires AllRecordedThere(w) && !s.Reconcile?
    ensures AllRecordedThere(Do(w, s, zone)) <==> !RenamesBack(w, s)
  {
    var w' := Do(w, s, zone);
    if RenamesBack(w, s) {
      assert Recorded(w', s.u, s.spec.name);
    } else {
      forall u | u in w'.objs && Recorded(w', u, w'.objs[u].spec.name) ensures w'.objs[u].spec.name in w'.table {
        assert u in w.objs;
        if !(s.Edit? && s.u == u) { assert Recorded(w, u, w.objs[u].spec.name); }
      }
    }
  }

  /** A name gets on record only with its entry on the router. */
  lemma UpheldRecords(w: World, u: Uid, f: Faults, zone: string)
    requires u in w.objs
    ensures var a, w' := w.objs[u], Upheld(w, u, f, zone);
            u in w'.objs && (w'.objs[u].appliedName == a.appliedName || a.spec.name in w'.table)
  {
    hide Release, Publish;
    var a := w.objs[u];
    ReleaseEffect(w, u, a.appliedName, f);
    var w1 := if a.appliedName != a.spec.name then Release(w, u, a.appliedName, f).0 else w;
    PublishEffect(w1, a.spec, f, zone);
  }

  /** No reconcile, whatever fails in it, leaves a recorded name without its entry. */
  lemma ReconcileRecords(w: World, u: Uid, f: Faults, zone: string)
    requires AllRecordedThere(w)
    ensures AllRecordedThere(Reconciled(w, u, f, zone))
  {
    hide Reconciled;
    var w' := Reconciled(w, u, f, zone);
    forall v | v in w'.objs && Recorded(w', v, w'.objs[v].spec.name) ensures w'.objs[v].spec.name in w'.table {
      RecordedStays(w, u, f, zone, v);
    }
  }

  lemma RecordedStays(w: World, u: Uid, f: Faults, zone: string, v: Uid)
    requires AllRecordedThere(w)
    ensures var w' := Reconciled(w, u, f, zone);
            v in w'.objs && Recorded(w', v, w'.objs[v].spec.name) ==> w'.objs[v].spec.name in w'.table
  {
    hide Reconciled, ClaimantsOf, RivalsOf;
    var w' := Reconciled(w, u, f, zone);
    if v in w'.objs && !w'.objs[v].deleting {
      var n := w'.objs[v].spec.name;
      RecordedBefore(w, u, f, zone, v);
      ReconcileFrame(w, u, f, zone, n);
      AskerClaims(w, u, v, n);
    }
  }

  /** A record is an old one, or was written with its entry. */
  lemma RecordedBefore(w: World, u: Uid, f: Faults, zone: string, v: Uid)
    requires var w' := Reconciled(w, u, f, zone); v in w'.objs && !w'.objs[v].deleting
    ensures var w' := Reconciled(w, u, f, zone);
            && v in w.objs && !w.objs[v].deleting && w.objs[v].spec == w'.objs[v].spec
            && (w.objs[v].appliedName == w'.objs[v].appliedName || w'.objs[v].spec.name in w'.table)
  {
    hide Release, Upheld, RivalsOf;
    if u in w.objs {
      ReleaseEffect(w, u, Target(w.objs[u]), f);
      UpheldObjects(w, u, f, zone);
      UpheldRecords(w, u, f, zone);
    }
  }

  lemma AskerClaims(w: World, u: Uid, v: Uid, n: string)
    ensures v != u && Asks(w, v, n) ==> v in ClaimantsOf(w.objs, n, u)
  {}

  /** So over every run without such a step, from a start without objects, a recorded name is there. */
  lemma {:induction false} RecordsReached(w: World, steps: seq<Step>, zone: string)
    requires AllRecordedThere(w) && NoneRenamesBack(w, steps, zone)
    ensures AllRecordedThere(Run(w, steps, zone))
    decreases |steps|
  {
    hide AllRecordedThere, RenamesBack, Do;
    if steps != [] {
      var s := steps[0];
      assert AllRecordedThere(Do(w, s, zone)) by {
        if s.Reconcile? {
          ReconcileRecords(w, s.u, s.faults, zone);
          DoReconcile(w, s, zone);
        } else {
          UserStepRecords(w, s, zone);
        }
      }
      RecordsReached(Do(w, s, zone), steps[1..], zone);
    }
  }

  /** Entry n is the one it was, or was rewritten for the same domain. */
  predicate Faithful(w: World, w': World, n: string, domain: string) {
    && n in w'.table
    && (SameAt(w, w', n) || (n in w'.writer && EqualFold(w'.writer[n], domain)))
  }

  lemma PresentStep(w: World, s: Step, zone: string, u: Uid, n: string)
    requires Published(w, u, n) && !Touches(s, u)
    ensures var w' := Do(w, s, zone);
            Published(w', u, n) && w'.objs[u].spec == w.objs[u].spec
            && Faithful(w, w', n, w.objs[u].spec.domain)
  {
    hide Reconciled;
    if s.Reconcile? {
      var w' := Do(w, s, zone);
      ReconcileKeepsSpecs(w, s.u, s.faults, zone, u);
      ReconcileFrame(w, s.u, s.faults, zone, n);
      ReconcileKeepsRecord(w, s.u, s.faults, zone, u);
      if s.u != u {
        assert u in ClaimantsOf(w.objs, n, s.u);
        assert Asks(w, s.u, n) && RivalsOf(w.objs, s.u, w.objs[s.u].spec) == {}
            ==> EqualFold(w.objs[u].spec.domain, w.objs[s.u].spec.domain) by {
          assert Asks(w, s.u, n) ==> (u in RivalsOf(w.objs, s.u, w.objs[s.u].spec)
              <==> !EqualFold(w.objs[u].spec.domain, w.objs[s.u].spec.domain));
        }
      }
    }
  }

  lemma ReconcileKeepsRecord(w: World, u: Uid, f: Faults, zone: string, v: Uid)
    requires v in w.objs && !w.objs[v].deleting && w.objs[v].appliedName == w.objs[v].spec.name
    ensures var w' := Reconciled(w, u, f, zone);
            v in w'.objs && w'.objs[v].appliedName == w.objs[v].appliedName
  {
    hide Release, Upheld, RivalsOf;
    if u in w.objs {
      ReleaseEffect(w, u, Target(w.objs[u]), f);
      UpheldObjects(w, u, f, zone);
    }
  }

  lemma FaithfulChain(w: World, w1: World, w2: World, n: string, domain: string)
    requires Faithful(w, w1, n, domain) && Faithful(w1, w2, n, domain)
    ensures Faithful(w, w2, n, domain)
  {}

  lemma {:induction false} PresentSurvives(w: World, steps: seq<Step>, zone: string, u: Uid, n: string)
    requires Published(w, u, n)
    requires forall s <- steps :: !Touches(s, u)
    ensures Published(Run(w, steps, zone), u, n)
    ensures Faithful(w, Run(w, steps, zone), n, w.objs[u].spec.domain)
    decreases |steps|
  {
    hide Do;
    if steps != [] {
      var w1 := Do(w, steps[0], zone);
      PresentStep(w, steps[0], zone, u, n);
      PresentSurvives(w1, steps[1..], zone, u, n);
      FaithfulChain(w, w1, Run(w1, steps[1..], zone), n, w.objs[u].spec.domain);
    }
  }

  /** Where recorded names are there, one step of anybody else keeps the entry of a recorded name. */
  lemma SurvivalStep(w: World, s: Step, zone: string, u: Uid, n: string)
    requires AllRecordedThere(w) && Recorded(w, u, n) && !Touches(s, u)
    ensures var w' := Do(w, s, zone);
            Published(w', u, n) && w'.objs[u].spec == w.objs[u].spec
            && Faithful(w, w', n, w.objs[u].spec.domain)
  {
    hide Do, Faithful;
    PresentStep(w, s, zone, u, n);
  }

  /**
   * Start with no objects and run without renaming back. From the moment an object has its present
   * name on record, its entry is on the router through every further run that does not edit or
   * delete the object, whatever others do or fail at, and is only ever rewritten for the same domain.
   */
  lemma PublishedSurvives(start: World, before: seq<Step>, steps: seq<Step>, zone: string, u: Uid, n: string)
    requires start.objs == map[] && NoneRenamesBack(start, before, zone)
    requires Recorded(Run(start, before, zone), u, n)
    requires forall s <- steps :: !Touches(s, u)
    ensures var w := Run(start, before, zone);
            var w' := Run(w, steps, zone);
            Published(w, u, n) && Published(w', u, n) && Faithful(w, w', n, w.objs[u].spec.domain)
  {
    hide Run, Faithful;
    RecordsReached(start, before, zone);
    PresentSurvives(Run(start, before, zone), steps, zone, u, n);
  }

  const CALM := Faults(false, false, false, false, Whole, Whole, Mask(true, true, true, {}))

  /**
   * A reconcile without failures publishes an uncontested, acceptable object: its entry is there, and
   * what the router then shows asks for no further write, except where the entry is stuck.
   */
  lemma CalmReconcilePublishes(w: World, u: Uid, f: Faults, zone: string)
    requires u in w.objs && !w.objs[u].deleting && w.objs[u].finalizer
    requires f == CALM.(mask := f.mask)
    requires RivalsOf(w.objs, u, w.objs[u].spec) == {}
    requires !Refused(ProxyFromSpec(w.objs[u].spec), zone)
    ensures var n, p, w' := w.objs[u].spec.name, ProxyFromSpec(w.objs[u].spec), Reconciled(w, u, f, zone);
            && Published(w', u, n)
            && (NeedsWrite(w'.table, p, f.mask) <==> Stuck(w.table, p, f.mask))
  {
    hide Release, Publish, NeedsWrite, NameOk, Stuck, Refused, ProxyFromSpec;
    var a := w.objs[u];
    var p := ProxyFromSpec(a.spec);
    SpecName(a.spec);
    AcceptedName(a.spec, zone);
    ReleaseEffect(w, u, a.appliedName, f);
    CalmParts(w, u, a.appliedName, f);
    var w1 := if a.appliedName != a.spec.name then Release(w, u, a.appliedName, f).0 else w;
    assert SameAt(w, w1, a.spec.name);
    SameStuck(w, w1, p, f.mask);
    PublishEffect(w1, a.spec, f, zone);
    CalmPublish(w1, a.spec, f, zone);
  }

  lemma SameStuck(w: World, w': World, p: Proxy, m: Mask)
    requires SameAt(w, w', p.name)
    ensures Stuck(w'.table, p, m) == Stuck(w.table, p, m)
  {}

  lemma AcceptedName(spec: Spec, zone: string)
    requires !Refused(ProxyFromSpec(spec), zone)
    ensures NameOk(spec.name) && spec.name != ""
  {}

  lemma CalmParts(w: World, u: Uid, name: string, f: Faults)
    requires !f.claimantList && f.removal.Whole?
    ensures Release(w, u, name, f).1
  {}

  lemma CalmPublish(w: World, spec: Spec, f: Faults, zone: string)
    requires f.publish.Whole? && !Refused(ProxyFromSpec(spec), zone)
    ensures var (w1, ok) := Publish(w, spec, f, zone);
            ok && (NeedsWrite(w1.table, ProxyFromSpec(spec), f.mask) <==> Stuck(w.table, ProxyFromSpec(spec), f.mask))
  {
    hide NeedsWrite, ExecAll, EnsureCommands, ProxyOk, Stuck;
    var p, c := ProxyFromSpec(spec), Cli(Top, w.table, map[]);
    SecondRunSilent(c, p, f.mask);
    assert EnsureCommands(p)[..|EnsureCommands(p)|] == EnsureCommands(p);
  }

  // ----- sharing a host costs no flash writes -----

  /** The entry is as wanted, every object that asks for it wants the same, and none gives it up. */
  predicate Quiet(w: World, p: Proxy, m: Mask) {
    && !NeedsWrite(w.table, p, m)
    && (forall u <- w.objs :: Agrees(w.objs[u], p))
  }

  predicate Agrees(a: App, p: Proxy) {
    if a.deleting then Target(a) != p.name
    else (a.spec.name == p.name ==> ProxyFromSpec(a.spec) == p) && (a.appliedName == p.name ==> a.spec.name == p.name)
  }

  lemma QuietPublish(w: World, spec: Spec, f: Faults, zone: string)
    requires !NeedsWrite(w.table, ProxyFromSpec(spec), f.mask)
    ensures Publish(w, spec, f, zone).0 == w
  {}

  lemma QuietUpheld(w: World, u: Uid, f: Faults, zone: string, p: Proxy)
    requires u in w.objs && !w.objs[u].deleting && Agrees(w.objs[u], p)
    requires !NeedsWrite(w.table, p, f.mask)
    ensures SameAt(w, Upheld(w, u, f, zone), p.name)
  {
    hide Release, Publish, ProxyFromSpec;
    var a := w.objs[u];
    ReleaseEffect(w, u, a.appliedName, f);
    var w1 := if a.appliedName != a.spec.name then Release(w, u, a.appliedName, f).0 else w;
    assert a.appliedName != a.spec.name ==> a.appliedName != p.name;
    assert SameAt(w, w1, p.name);
    PublishEffect(w1, a.spec, f, zone);
    var (w2, _) := Publish(w1, a.spec, f, zone);
    if a.spec.name == p.name {
      SameNeed(w, w1, p, f.mask);
      QuietPublish(w1, a.spec, f, zone);
    }
    assert SameAt(w1, w2, p.name);
  }

  lemma SameNeed(w: World, w': World, p: Proxy, m: Mask)
    requires SameAt(w, w', p.name)
    ensures NeedsWrite(w'.table, p, m) == NeedsWrite(w.table, p, m)
  {}

  lemma QuietStep(w: World, u: Uid, f: Faults, zone: string, p: Proxy)
    requires Quiet(w, p, f.mask)
    ensures Quiet(Reconciled(w, u, f, zone), p, f.mask) && SameAt(w, Reconciled(w, u, f, zone), p.name)
  {
    hide Release, Upheld, RivalsOf, ProxyFromSpec, NeedsWrite;
    if u in w.objs {
      var a, w' := w.objs[u], Reconciled(w, u, f, zone);
      ReleaseEffect(w, u, Target(a), f);
      assert Agrees(a, p);
      if !a.deleting {
        QuietUpheld(w, u, f, zone, p);
      } else {
        assert SameAt(w, Release(w, u, Target(a), f).0, p.name);
      }
      assert SameAt(w, w', p.name);
      SameNeed(w, w', p, f.mask);
      AllAgree(w, u, f, zone, p);
    }
  }

  lemma AllAgree(w: World, u: Uid, f: Faults, zone: string, p: Proxy)
    requires forall v <- w.objs :: Agrees(w.objs[v], p)
    ensures forall v <- Reconciled(w, u, f, zone).objs :: Agrees(Reconciled(w, u, f, zone).objs[v], p)
  {
    hide Reconciled, Agrees;
    var w' := Reconciled(w, u, f, zone);
    forall v | v in w'.objs ensures Agrees(w'.objs[v], p) {
      ReconciledObject(w, u, f, zone, v);
      StillAgrees(w.objs[v], w'.objs[v], p);
    }
  }

  /** A reconcile changes of an object at most the record of the applied name, to the name asked for. */
  lemma ReconciledObject(w: World, u: Uid, f: Faults, zone: string, v: Uid)
    requires v in Reconciled(w, u, f, zone).objs
    ensures v in w.objs
    ensures var a, a' := w.objs[v], Reconciled(w, u, f, zone).objs[v];
            && a'.spec == a.spec && a'.deleting == a.deleting
            && (a'.appliedName == a.appliedName || (!a.deleting && a'.appliedName == a.spec.name))
  {
    hide Release, Upheld, RivalsOf;
    if u in w.objs {
      ReleaseEffect(w, u, Target(w.objs[u]), f);
      UpheldObjects(w, u, f, zone);
    }
  }

  lemma StillAgrees(a: App, a': App, p: Proxy)
    requires Agrees(a, p) && a'.spec == a.spec && a'.deleting == a.deleting
    requires a'.appliedName == a.appliedName || (!a.deleting && a'.appliedName == a.spec.name)
    ensures Agrees(a', p)
  {
    hide ProxyFromSpec;
  }

  /**
   * However many objects share an entry, once it is as they want it no order of reconciles and no
   * failure makes any of them write it again.
   */
  lemma {:induction false} SharersNeverRewrite(w: World, steps: seq<Step>, zone: string, p: Proxy, m: Mask)
    requires Quiet(w, p, m)
    requires forall s <- steps :: s.Reconcile? && s.faults.mask == m
    ensures Quiet(Run(w, steps, zone), p, m) && SameAt(w, Run(w, steps, zone), p.name)
    decreases |steps|
  {
    hide Quiet, Reconciled;
    if steps != [] {
      assert steps[0] in steps;
      QuietStep(w, steps[0].u, steps[0].faults, zone, p);
      SharersNeverRewrite(Do(w, steps[0], zone), steps[1..], zone, p, m);
    }
  }

  // ----- entries are removed only when unclaimed, and stranded ones never -----

  /** An entry disappears only in a reconcile, and only when no other live object asks for it. */
  lemma RemovedOnlyUnclaimed(w: World, s: Step, zone: string, n: string)
    requires n in w.table && n !in Do(w, s, zone).table
    ensures s.Reconcile? && forall v <- w.objs :: v != s.u ==> !Asks(w, v, n)
  {
    hide Reconciled;
    if s.Reconcile? {
      ReconcileFrame(w, s.u, s.faults, zone, n);
      forall v | v in w.objs && v != s.u ensures !Asks(w, v, n) {
        assert Asks(w, v, n) ==> v in ClaimantsOf(w.objs, n, s.u);
      }
    }
  }

  /**
   * An object goes away only once the entry it has to give back is off the router, or with that
   * entry untouched because another live object asks for it.
   */
  lemma GoneMeansReleased(w: World, u: Uid, f: Faults, zone: string)
    requires u in w.objs && u !in Reconciled(w, u, f, zone).objs && NameOk(Target(w.objs[u]))
    ensures var n, w' := Target(w.objs[u]), Reconciled(w, u, f, zone);
            if ClaimantsOf(w.objs, n, u) == {} then n !in w'.table && n !in w'.writer else SameAt(w, w', n)
  {
    hide NameOk, Upheld, RivalsOf, Release, ClaimantsOf;
    UpheldObjects(w, u, f, zone);
    ReleaseEffect(w, u, Target(w.objs[u]), f);
    ReleaseComplete(w, u, Target(w.objs[u]), f);
  }

  lemma ReleaseComplete(w: World, u: Uid, name: string, f: Faults)
    requires NameOk(name) && Release(w, u, name, f).1
    ensures var w1 := Release(w, u, name, f).0;
            if ClaimantsOf(w.objs, name, u) == {} then name !in w1.table && name !in w1.writer else w1 == w
  {}

  predicate Names(s: Step, n: string) { (s.Create? || s.Edit?) && s.spec.name == n }

  predicate Mentions(w: World, n: string) {
    exists u <- w.objs :: w.objs[u].spec.name == n || w.objs[u].appliedName == n
  }

  /** Once no object mentions an entry, nothing but a new object of that name ever touches it again. */
  lemma {:induction false} StrandedForever(w: World, steps: seq<Step>, zone: string, n: string)
    requires n != "" && !Mentions(w, n)
    requires forall s <- steps :: !Names(s, n)
    ensures SameAt(w, Run(w, steps, zone), n)
    decreases |steps|
  {
    hide Do;
    if steps != [] {
      var w1 := Do(w, steps[0], zone);
      UnmentionedStep(w, steps[0], zone, n);
      StrandedForever(w1, steps[1..], zone, n);
    }
  }

  lemma UnmentionedStep(w: World, s: Step, zone: string, n: string)
    requires n != "" && !Mentions(w, n) && !Names(s, n)
    ensures SameAt(w, Do(w, s, zone), n) && !Mentions(Do(w, s, zone), n)
  {
    hide Reconciled;
    if s.Reconcile? {
      ReconcileFrame(w, s.u, s.faults, zone, n);
      ReconcileMentions(w, s.u, s.faults, zone, n);
    }
  }

  lemma ReconcileMentions(w: World, u: Uid, f: Faults, zone: string, n: string)
    requires !Mentions(w, n)
    ensures !Mentions(Reconciled(w, u, f, zone), n)
  {
    hide Reconciled;
    forall v | v in Reconciled(w, u, f, zone).objs { ReconciledObject(w, u, f, zone, v); }
  }

  lemma {:induction false} NeverMentioned(w: World, steps: seq<Step>, zone: string, n: string)
    requires n != "" && !Mentions(w, n)
    requires forall s <- steps :: !Names(s, n)
    ensures !Mentions(Run(w, steps, zone), n) && !Held(Run(w, steps, zone), n)
    decreases |steps|
  {
    hide Do;
    if steps != [] {
      UnmentionedStep(w, steps[0], zone, n);
      NeverMentioned(Do(w, steps[0], zone), steps[1..], zone, n);
    }
  }

  // ----- how the promises fail, from a start with nothing at all -----

  const NOTHING := World(map[], map[], map[])

  const LOST_STATUS := CALM.(status := true)

  lemma {:induction false} RunConcat(w: World, a: seq<Step>, b: seq<Step>, zone: string)
    ensures Run(w, a + b, zone) == Run(Run(w, a, zone), b, zone)
    decreases |a|
  {
    hide Do;
    if a == [] {
      assert a + b == b;
    } else {
      assert (a + b)[1..] == a[1..] + b;
      RunConcat(Do(w, a[0], zone), a[1..], b, zone);
    }
  }

  lemma RunThree(w: World, a: Step, b: Step, c: Step, zone: string)
    ensures Run(w, [a, b, c], zone) == Do(Do(Do(w, a, zone), b, zone), c, zone)
  {
    hide Do;
    assert [a, b, c][1..] == [b, c] && [b, c][1..] == [c] && [c][1..] == [];
    assert Run(Do(w, a, zone), [b, c], zone) == Run(Do(Do(w, a, zone), b, zone), [c], zone);
    assert Run(Do(Do(w, a, zone), b, zone), [c], zone) == Do(Do(Do(w, a, zone), b, zone), c, zone);
  }

  /** An object is created and reconciled twice, the second time perhaps without its status written. */
  function Begin(u: Uid, spec: Spec, f: Faults): seq<Step> { [Create(u, spec), Reconcile(u, CALM), Reconcile(u, f)] }

  lemma Begun(spec: Spec, zone: string, f: Faults)
    requires !Refused(ProxyFromSpec(spec), zone) && (f == CALM || f == LOST_STATUS)
    ensures var w := Run(NOTHING, Begin(0, spec, f), zone);
            && w.objs == map[0 := App(true, false, spec, !f.status, if f.status then "" else spec.name)]
            && w.writer == map[spec.name := spec.domain] && w.table.Keys == {spec.name} && NameOk(spec.name)
  {
    hide Publish, Refused;
    RunThree(NOTHING, Create(0, spec), Reconcile(0, CALM), Reconcile(0, f), zone);
    var w := World(map[0 := App(true, false, spec, false, "")], map[], map[]);
    assert Do(Do(NOTHING, Create(0, spec), zone), Reconcile(0, CALM), zone) == w;
    assert RivalsOf(w.objs, 0, spec) == {};
    FirstPublish(w, spec, f, zone);
  }

  lemma FirstPublish(w: World, spec: Spec, f: Faults, zone: string)
    requires !Refused(ProxyFromSpec(spec), zone) && f.publish.Whole?
    requires w.table == map[] && w.writer == map[]
    ensures var (w1, ok) := Publish(w, spec, f, zone);
            && ok && w1.objs == w.objs && w1.table.Keys == {spec.name}
            && w1.writer == map[spec.name := spec.domain] && NameOk(spec.name)
  {
    hide ExecAll, EnsureCommands, ProxyOk;
    var p, c := ProxyFromSpec(spec), Cli(Top, w.table, map[]);
    ExecEnsure(c, p);
    assert EnsureCommands(p) == Executed(f.publish, EnsureCommands(p));
    assert NameOk(spec.name) by { NameChecked(p); }
  }

  lemma NameChecked(p: Proxy)
    requires ProxyOk(p)
    ensures NameOk(p.name)
  {}

  /**
   * The promise fails without respect: an object whose entry was written but whose status write
   * was lost is renamed, and its old entry is left behind for good.
   */
  lemma RenameStrands(spec: Spec, name: string, steps: seq<Step>, zone: string)
    requires !Refused(ProxyFromSpec(spec), zone) && spec.name != name
    requires forall s <- steps :: !Names(s, spec.name)
    ensures var w := Run(NOTHING, Begin(0, spec, LOST_STATUS), zone);
            var w' := Run(w, [Edit(0, spec.(name := name))] + steps, zone);
            NoneStranded(w) && spec.name in w'.table && spec.name in w'.writer && !Held(w', spec.name)
  {
    assert !NameOk("");
    hide NameOk, Refused, Begin;
    Begun(spec, zone, LOST_STATUS);
    var w := Run(NOTHING, Begin(0, spec, LOST_STATUS), zone);
    assert Holds(w.objs[0], spec.name);
    var first := Edit(0, spec.(name := name));
    var w1 := Do(w, first, zone);
    assert ([first] + steps)[1..] == steps;
    assert !Mentions(w1, spec.name);
    StrandedForever(w1, steps, zone, spec.name);
    NeverMentioned(w1, steps, zone, spec.name);
  }

  /**
   * A recorded name alone does not mean that the entry is there: while one object's rename is still
   * pending, an object of the old name comes and goes and takes the entry away, and the rename is
   * then undone. No step on the way strands anything.
   */
  lemma RecordedButAbsent(spec: Spec, other: string, zone: string)
    requires !Refused(ProxyFromSpec(spec), zone) && other != spec.name
    ensures var w := Run(NOTHING, Begin(0, spec, CALM), zone);
            var detour := [Edit(0, spec.(name := other)), Create(1, spec), Reconcile(1, CALM),
                           Delete(1), Reconcile(1, CALM), Edit(0, spec)];
            var w' := Run(w, detour, zone);
            && NoneStranded(w) && AllRespectful(w, detour, zone)
            && Recorded(w', 0, spec.name) && spec.name !in w'.table
  {
    hide NameOk, Refused, Begin, Do, AllRespectful, Respectful, NoneStranded;
    Begun(spec, zone, CALM);
    var w := Run(NOTHING, Begin(0, spec, CALM), zone);
    var w3 := DetourOut(w, spec, other, zone);
    var w6 := DetourBack(w3, spec, other, zone);
    var s1, s2, s3 := Edit(0, spec.(name := other)), Create(1, spec), Reconcile(1, CALM);
    var s4, s5, s6 := Delete(1), Reconcile(1, CALM), Edit(0, spec);
    RunThree(w, s1, s2, s3, zone);
    RunThree(w3, s4, s5, s6, zone);
    RunConcat(w, [s1, s2, s3], [s4, s5, s6], zone);
    RespectNothing(w6, zone);
    assert [s4, s5, s6] + [] == [s4, s5, s6];
    RespectThree(w3, s4, s5, s6, [], zone);
    RespectThree(w, s1, s2, s3, [s4, s5, s6], zone);
    assert [s1, s2, s3] + [s4, s5, s6] == [s1, s2, s3, s4, s5, s6];
  }

  lemma RespectNothing(w: World, zone: string)
    ensures AllRespectful(w, [], zone)
  {}

  lemma RespectThree(w: World, a: Step, b: Step, c: Step, rest: seq<Step>, zone: string)
    requires Respectful(w, a) && Respectful(Do(w, a, zone), b) && Respectful(Do(Do(w, a, zone), b, zone), c)
    requires AllRespectful(Do(Do(Do(w, a, zone), b, zone), c, zone), rest, zone)
    ensures AllRespectful(w, [a, b, c] + rest, zone)
  {
    hide Do, Respectful;
    var all := [a, b, c] + rest;
    assert all[1..] == [b, c] + rest && ([b, c] + rest)[1..] == [c] + rest && ([c] + rest)[1..] == rest;
    assert AllRespectful(Do(Do(w, a, zone), b, zone), [c] + rest, zone);
    assert AllRespectful(Do(w, a, zone), [b, c] + rest, zone);
  }

  /** The object's rename is pending, and another object asks for the old name. */
  lemma DetourOut(w: World, spec: Spec, other: string, zone: string) returns (w3: World)
    requires other != spec.name && NameOk(spec.name)
    requires w.objs == map[0 := App(true, false, spec, true, spec.name)]
    requires w.writer == map[spec.name := spec.domain]
    ensures NoneStranded(w)
    ensures w3 == w.(objs := map[0 := App(true, false, spec.(name := other), true, spec.name),
                                 1 := App(true, false, spec, false, "")])
    ensures var s1, s2, s3 := Edit(0, spec.(name := other)), Create(1, spec), Reconcile(1, CALM);
            var w1 := Do(w, s1, zone);
            var w2 := Do(w1, s2, zone);
            w3 == Do(w2, s3, zone) && Respectful(w, s1) && Respectful(w1, s2) && Respectful(w2, s3)
  {
    hide NameOk, Upheld, RivalsOf, Finish;
    var n, away := spec.name, App(true, false, spec.(name := other), true, spec.name);
    assert Holds(w.objs[0], n);
    var w1 := w.(objs := map[0 := away]);
    var w2 := w.(objs := map[0 := away, 1 := App(false, false, spec, false, "")]);
    w3 := w.(objs := map[0 := away, 1 := App(true, false, spec, false, "")]);
    assert Do(w, Edit(0, spec.(name := other)), zone) == w1;
    assert Do(w1, Create(1, spec), zone) == w2;
    assert Do(w2, Reconcile(1, CALM), zone) == w3;
  }

  /** That object goes away with the entry, and the rename is undone. */
  lemma DetourBack(w3: World, spec: Spec, other: string, zone: string) returns (w6: World)
    requires other != spec.name && NameOk(spec.name)
    requires w3.objs == map[0 := App(true, false, spec.(name := other), true, spec.name),
                            1 := App(true, false, spec, false, "")]
    requires w3.writer == map[spec.name := spec.domain] && w3.table.Keys == {spec.name}
    ensures var s4, s5, s6 := Delete(1), Reconcile(1, CALM), Edit(0, spec);
            var w4 := Do(w3, s4, zone);
            var w5 := Do(w4, s5, zone);
            w6 == Do(w5, s6, zone) && Respectful(w3, s4) && Respectful(w4, s5) && Respectful(w5, s6)
    ensures Recorded(w6, 0, spec.name) && spec.name !in w6.table
  {
    assert !NameOk("");
    hide NameOk, Upheld, RivalsOf;
    var n, away := spec.name, App(true, false, spec.(name := other), true, spec.name);
    var w4 := w3.(objs := map[0 := away, 1 := App(true, true, spec, false, "")]);
    var w5 := World(map[0 := away], map[], map[]);
    w6 := w5.(objs := map[0 := App(true, false, spec, true, n)]);
    assert Do(w3, Delete(1), zone) == w4;
    TakenAway(w4, n, zone);
    assert w4.objs - {1} == w5.objs;
    assert Do(w4, Reconcile(1, CALM), zone) == w5;
    assert Do(w5, Edit(0, spec), zone) == w6;
  }

  /** The last claimant of the only entry goes away with it. */
  lemma TakenAway(w: World, n: string, zone: string)
    requires 1 in w.objs && w.objs[1].deleting && w.objs[1].finalizer && Target(w.objs[1]) == n
    requires ClaimantsOf(w.objs, n, 1) == {} && NameOk(n) && n != ""
    requires w.table.Keys == {n} && w.writer.Keys == {n}
    ensures Reconciled(w, 1, CALM, zone) == World(w.objs - {1}, map[], map[])
  {
    hide NameOk, Upheld, RivalsOf, ClaimantsOf;
    assert w.table - {n} == map[] && w.writer - {n} == map[];
  }
}
