/**
 * The web-app actuator: many objects claim entries of one router table by name. A reconcile is
 * modelled with every point at which it can fail, a router session included, which may break off
 * after any number of commands.
 */
module WebApps {
  import opened Text
  import opened Validation
  import opened Proxies
  import opened RunningConfig
  import opened RouterCli
  import opened Specs
  import opened Terminal

  type Uid = nat

  datatype App = App(finalizer: bool, deleting: bool, spec: Spec, applied: bool, appliedName: string)

  /**
   * The stored objects, the router's table, and for every entry the operator has written the
   * domain it was last written for.
   */
  datatype World = World(objs: map<Uid, App>, table: map<string, Proxy>, writer: map<string, string>)

  /** What goes wrong during one reconcile, and what the router shows while it runs. */
  datatype Faults = Faults(
    rivalList: bool, claimantList: bool, update: bool, status: bool,
    removal: Ending, publish: Ending, mask: Mask)

  // ----- who claims a name -----

  /** Live objects other than self that ask for the entry. */
  function ClaimantsOf(objs: map<Uid, App>, name: string, self: Uid): set<Uid> {
    set v | v in objs && v != self && !objs[v].deleting && objs[v].spec.name == name
  }

  /** Live objects that ask for the same entry under another domain. */
  function RivalsOf(objs: map<Uid, App>, self: Uid, spec: Spec): set<Uid> {
    set v | v in ClaimantsOf(objs, spec.name, self) && !EqualFold(objs[v].spec.domain, spec.domain)
  }

  // ----- one reconcile, as a function of the world -----

  function Release(w: World, u: Uid, name: string, f: Faults): (World, bool) {
    if name == "" then (w, true)
    else if f.claimantList then (w, false)
    else if ClaimantsOf(w.objs, name, u) != {} then (w, true)
    else if !NameOk(name) then (w, true)
    else
      var removed := w.(table := w.table - {name}, writer := w.writer - {name});
      match f.removal
      case Whole => (removed, true)
      case Broken(k) => (if k == 0 then w else removed, false)
  }

  function Publish(w: World, spec: Spec, f: Faults, zone: string): (World, bool) {
    var p := ProxyFromSpec(spec);
    if Refused(p, zone) || f.publish == Broken(0) then (w, false)
    else if !NeedsWrite(w.table, p, f.mask) then (w, true)
    else
      (w.(table := ExecAll(Cli(Top, w.table, map[]), Executed(f.publish, EnsureCommands(p))).running,
          writer := w.writer[spec.name := spec.domain]),
       f.publish.Whole?)
  }

  /** The name a deleted object has to give back. */
  function Target(a: App): string {
    if a.appliedName == "" then a.spec.name else a.appliedName
  }

  function Finish(w: World, u: Uid, f: Faults): World
    requires u in w.objs
  {
    var (w1, ok) := Release(w, u, Target(w.objs[u]), f);
    if !ok || f.update then w1 else w1.(objs := w1.objs - {u})
  }

  /** The part of a reconcile that follows once the name is not contested. */
  function Upheld(w: World, u: Uid, f: Faults, zone: string): World
    requires u in w.objs
  {
    var a := w.objs[u];
    var (w1, released) := if a.appliedName != a.spec.name then Release(w, u, a.appliedName, f) else (w, true);
    if !released then w1 else
      var (w2, published) := Publish(w1, a.spec, f, zone);
      if f.status then w2
      else if !published then w2.(objs := w2.objs[u := a.(applied := false)])
      else w2.(objs := w2.objs[u := a.(applied := true, appliedName := a.spec.name)])
  }

  function Reconciled(w: World, u: Uid, f: Faults, zone: string): World {
    if u !in w.objs then w else
      var a := w.objs[u];
      if a.deleting then
        if a.finalizer then Finish(w, u, f) else w
      else if !a.finalizer then
        if f.update then w else w.(objs := w.objs[u := a.(finalizer := true)])
      else if f.rivalList then w
      else if RivalsOf(w.objs, u, a.spec) != {} then
        if f.status then w else w.(objs := w.objs[u := a.(applied := false)])
      else Upheld(w, u, f, zone)
  }

  lemma SpecName(spec: Spec)
    ensures ProxyFromSpec(spec).name == spec.name
  {}

  lemma CommandList(p: Proxy)
    ensures ProxyCommands(p) + [SAVE] == EnsureCommands(p)
  {}

  /** What a write does to a table, broken off or not. */
  lemma WriteEffect(t: map<string, Proxy>, p: Proxy, f: Faults)
    requires TableOk(t) && ProxyOk(p) && f.publish != Broken(0)
    ensures var c := Cli(Top, t, map[]);
            var t' := ExecAll(c, Executed(f.publish, EnsureCommands(p))).running;
            && TableOk(t') && p.name in t' && t' == t[p.name := t'[p.name]]
            && (f.publish.Whole? && NeedsWrite(t, p, f.mask) ==>
                  (NeedsWrite(t', p, f.mask) <==> Stuck(t, p, f.mask)))
            && (!NeedsWrite(t, p, f.mask) ==> p.name in t && !Stuck(t, p, f.mask))
  {
    hide ProxyOk, ExecAll, EnsureCommands, Stuck, View, EntryOk, Satisfied, CommandSettings, ApplyAll;
    var c, cmds := Cli(Top, t, map[]), EnsureCommands(p);
    var k := ExecutedPrefix(f.publish, cmds);
    assert |cmds| > 0 by { CommandCount(p); }
    assert cmds[..|cmds|] == cmds;
    PrefixKeepsOk(c, p, k);
    ExecPrefix(c, p, k);
    SecondRunSilent(c, p, f.mask);
    StuckNeedsWrite(t, p, f.mask);
  }

  // ----- the reconciler -----

  class Reconciler {
    const zone: string
    var objs: map<Uid, App>
    var table: map<string, Proxy>
    ghost var writer: map<string, string>

    ghost function State(): World
      reads this
    {
      World(objs, table, writer)
    }

    /** The router's table is one that it can print. */
    ghost predicate Valid()
      reads this
    {
      TableOk(table)
    }

    method Claimants(name: string, self: Uid) returns (out: set<Uid>)
      ensures out == ClaimantsOf(objs, name, self)
    {
      out := {};
      var rest := objs.Keys;
      while rest != {}
        invariant rest <= objs.Keys
        invariant out == ClaimantsOf(objs, name, self) - rest
      {
        var v :| v in rest;
        rest := rest - {v};
        if v == self || objs[v].deleting { continue; }
        if objs[v].spec.name == name {
          out := out + {v};
        }
      }
    }

    /** Some live object that claims the same entry under another domain. */
    method NameClaimedElsewhere(self: Uid, spec: Spec) returns (rival: Option<Uid>)
      ensures rival.None? <==> RivalsOf(objs, self, spec) == {}
      ensures rival.Some? ==> rival.value in RivalsOf(objs, self, spec)
    {
      var rest := objs.Keys;
      while rest != {}
        invariant rest <= objs.Keys
        invariant RivalsOf(objs, self, spec) <= rest
      {
        var v :| v in rest;
        rest := rest - {v};
        if v == self || objs[v].deleting { continue; }
        if objs[v].spec.name == spec.name && !EqualFold(objs[v].spec.domain, spec.domain) {
          assert v in RivalsOf(objs, self, spec);
          return Some(v);
        }
      }
      return None;
    }

    method ReleaseName(u: Uid, name: string, f: Faults) returns (ok: bool)
      requires Valid()
      modifies this`table, this`writer
      ensures Valid()
      ensures (State(), ok) == Release(old(State()), u, name, f)
    {
      if name == "" { return true; }
      if f.claimantList { return false; }
      var others := Claimants(name, u);
      if others != {} { return true; }
      if !NameOk(name) { return true; }
      if f.removal == Broken(0) { return false; }
      table := table - {name};
      writer := writer - {name};
      ok := f.removal.Whole?;
    }

    /** Types the commands of one session, as far as it gets. */
    method Type(cmds: seq<string>, ending: Ending)
      modifies this`table
      ensures table == ExecAll(Cli(Top, old(table), map[]), Executed(ending, cmds)).running
    {
      hide Exec;
      var cli := Cli(Top, table, map[]);
      ghost var before, lines := cli, Executed(ending, cmds);
      var n := if ending.Whole? || ending.after > |cmds| then |cmds| else ending.after;
      assert lines == cmds[..n];
      for i := 0 to n
        invariant ExecAll(cli, lines[i..]) == ExecAll(before, lines)
      {
        assert lines[i..][1..] == lines[i + 1..];
        cli := Exec(cli, cmds[i]);
      }
      table := cli.running;
    }

    /**
     * Reads the router's configuration and, if the entry is not good enough, types the commands for
     * it. No other entry changes; success means that the entry is there and that what can be read of
     * it is as wanted, unless it is stuck.
     */
    method EnsureProxy(spec: Spec, f: Faults) returns (ok: bool)
      requires Valid()
      modifies this`table, this`writer
      ensures Valid()
      ensures (State(), ok) == Publish(old(State()), spec, f, zone)
      ensures forall n | n != spec.name :: n in table <==> n in old(table)
      ensures forall n | n != spec.name && n in table :: table[n] == old(table)[n]
      ensures ok ==> spec.name in table && !Refused(ProxyFromSpec(spec), zone)
      ensures ok ==> (NeedsWrite(table, ProxyFromSpec(spec), f.mask)
                      <==> Stuck(old(table), ProxyFromSpec(spec), f.mask))
    {
      hide ProxyOk, ParseText, Satisfied, ExecAll, EnsureCommands, Stuck, View, EntryOk, ProxyFromSpec, Prints;
      var p := ProxyFromSpec(spec);
      SpecName(spec);
      if Refused(p, zone) || f.publish == Broken(0) { return false; }
      var printed := PrintConfig(table, f.mask);
      PlannedFromPrint(printed, table, f.mask, p);
      assert EnsureCommands(p) != [] by { CommandCount(p); }
      WriteEffect(table, p, f);
      var shown := ParseProxies(printed);
      if p.name in shown && Satisfied(shown[p.name], p) { return true; }
      var cmds := BuildCommands(p);
      assert cmds + [SAVE] == EnsureCommands(p) by { CommandList(p); }
      Type(cmds + [SAVE], f.publish);
      writer := writer[spec.name := spec.domain];
      ok := f.publish.Whole?;
    }

    method Reconcile(u: Uid, f: Faults)
      requires Valid()
      modifies this
      ensures Valid()
      ensures State() == Reconciled(old(State()), u, f, zone)
    {
      if u !in objs { return; }
      var app := objs[u];
      if app.deleting {
        if app.finalizer {
          var target := app.appliedName;
          if target == "" { target := app.spec.name; }
          var ok := ReleaseName(u, target, f);
          if !ok || f.update { return; }
          objs := objs - {u};
        }
        return;
      }
      if !app.finalizer {
        if !f.update { objs := objs[u := app.(finalizer := true)]; }
        return;
      }
      if f.rivalList { return; }
      var rival := NameClaimedElsewhere(u, app.spec);
      if rival.Some? {
        if !f.status { objs := objs[u := app.(applied := false)]; }
        return;
      }
      if app.appliedName != "" && app.appliedName != app.spec.name {
        var ok := ReleaseName(u, app.appliedName, f);
        if !ok { return; }
      }
      var ok := EnsureProxy(app.spec, f);
      if f.status { return; }
      if !ok {
        objs := objs[u := app.(applied := false)];
      } else {
        objs := objs[u := app.(applied := true, appliedName := app.spec.name)];
      }
    }
  }
}
