/**
 * Records shared by several owners. Each owner declares keys and, where it can, the value it wants
 * on them. The value of a record is written only while all who state one agree; ownership is taken
 * and given up regardless; a record goes with its last owner.
 */
module SharedOwnership {
  import opened Text

  type Owner = string
  type Key = string

  /** For each owner the keys it declares, with None while it has no value to offer. */
  type Claims<V> = map<Owner, map<Key, Option<V>>>

  datatype Rec<V> = Rec(value: V, owners: set<Owner>)

  type Store<V> = map<Key, Rec<V>>

  predicate Declares<V>(c: Claims<V>, i: Owner, h: Key) { i in c && h in c[i] }

  function Declarers<V>(c: Claims<V>, h: Key): set<Owner> { set i | i in c && h in c[i] }

  /** The different values stated for a key. */
  ghost function Votes<V>(c: Claims<V>, h: Key): set<V> {
    set i | i in c && h in c[i] && c[i][h].Some? :: c[i][h].value
  }

  /** All who state a value state this one. */
  ghost predicate Agreed<V>(c: Claims<V>, h: Key, v: V) { Votes(c, h) == {v} }

  ghost predicate Settled<V>(c: Claims<V>, h: Key) { |Votes(c, h)| == 1 }

  /** The one value stated for a settled key. */
  ghost function TheVote<V>(c: Claims<V>, h: Key): (v: V)
    requires Settled(c, h)
    ensures Agreed(c, h, v)
  {
    var v :| v in Votes(c, h);
    OnlyMember(Votes(c, h), v);
    v
  }

  lemma OnlyMember<V>(s: set<V>, v: V)
    requires |s| == 1 && v in s
    ensures s == {v}
  {
    forall x | x in s ensures x == v {
      if x != v { assert {x, v} <= s; assert |{x, v}| == 2; SubsetSize({x, v}, s); }
    }
  }

  lemma SubsetSize<V>(a: set<V>, b: set<V>)
    requires a <= b
    ensures |a| <= |b|
  {
    assert |b| == |a| + |b - a| by { assert b == a + (b - a); }
  }

  /** What one reconcile of owner i does to the record of key h. */
  ghost function KeyStep<V>(c: Claims<V>, i: Owner, h: Key, r: Option<Rec<V>>): Option<Rec<V>>
    requires i in c
  {
    if h in c[i] then
      if Settled(c, h) then
        Some(Rec(TheVote(c, h), (if r.Some? then r.value.owners else {}) + {i}))
      else if r.None? then None
      else Some(r.value.(owners := r.value.owners + {i}))
    else if r.None? || i !in r.value.owners then r
    else if r.value.owners == {i} then None
    else Some(r.value.(owners := r.value.owners - {i}))
  }

  function At<V>(s: Store<V>, h: Key): Option<Rec<V>> { if h in s then Some(s[h]) else None }

  /** One reconcile of owner i on the whole store; nothing happens for an owner that is gone. */
  ghost function Reconciled<V>(c: Claims<V>, i: Owner, s: Store<V>): Store<V> {
    if i !in c then s
    else map h | h in s.Keys + c[i].Keys && KeyStep(c, i, h, At(s, h)).Some? :: KeyStep(c, i, h, At(s, h)).value
  }

  /** The same, cut short by a failing call to the API when only the keys of `done` have been dealt with. */
  ghost function CutShort<V>(c: Claims<V>, i: Owner, s: Store<V>, done: set<Key>): Store<V> {
    if i !in c then s
    else map h | h in s.Keys + c[i].Keys && Partly(c, i, s, done, h).Some? :: Partly(c, i, s, done, h).value
  }

  /** The record of a key when only the keys of `done` have been dealt with. */
  ghost function Partly<V>(c: Claims<V>, i: Owner, before: Store<V>, done: set<Key>, h: Key): Option<Rec<V>>
    requires i in c
  {
    if h in done then KeyStep(c, i, h, At(before, h)) else At(before, h)
  }

  lemma CutShortAt<V>(c: Claims<V>, i: Owner, s: Store<V>, done: set<Key>, h: Key)
    ensures At(CutShort(c, i, s, done), h) == if i in c then Partly(c, i, s, done, h) else At(s, h)
  {}

  lemma ReconciledAt<V>(c: Claims<V>, i: Owner, s: Store<V>, h: Key)
    ensures At(Reconciled(c, i, s), h) == if i in c then KeyStep(c, i, h, At(s, h)) else At(s, h)
  {}

  /**
   * What one reconcile of owner i comes to for a key. A wanted record is there if it was, or if one
   * value is agreed on; an unwanted one goes exactly with its last owner; ownership follows what is
   * wanted; and a value changes only on a wanted key, to the value agreed on.
   */
  lemma KeyOutcome<V>(c: Claims<V>, i: Owner, s: Store<V>, h: Key)
    requires i in c
    ensures var s', wanted, agreed := Reconciled(c, i, s), h in c[i], |Votes(c, h)| == 1;
            && (h in s' <==> if wanted then h in s || agreed else h in s && s[h].owners != {i})
            && (h in s' ==> forall j :: j in s'[h].owners <==>
                  if j == i then wanted else h in s && j in s[h].owners)
            && (h in s' && wanted && agreed ==> Votes(c, h) == {s'[h].value})
            && (h in s' && h in s && !(wanted && agreed) ==> s'[h].value == s[h].value)
  {
    hide Votes;
    ReconciledAt(c, i, s, h);
    var s' := Reconciled(c, i, s);
    assert At(s', h) == KeyStep(c, i, h, At(s, h));
    assert h in s && i in s[h].owners && s[h].owners - {i} == {} ==> s[h].owners == {i};
  }

  // ----- the reconcile as the source performs it -----

  class SharedStore<V(==)> {
    var recs: Store<V>

    /** Creates or updates the record of one key the owner wants; true when its value is left open. */
    method Attach(ghost c: Claims<V>, i: Owner, h: Key, votes: seq<V>) returns (left: bool)
      requires i in c && h in c[i] && Lists(votes, Votes(c, h))
      modifies this
      ensures At(recs, h) == KeyStep(c, i, h, At(old(recs), h))
      ensures forall k | k != h :: At(recs, k) == At(old(recs), k)
      ensures left <==> !Settled(c, h)
    {
      ListsSize(votes, Votes(c, h));
      if |votes| == 1 {
        OnlyMember(Votes(c, h), votes[0]);
        assert TheVote(c, h) == votes[0];
        recs := recs[h := Rec(votes[0], (if h in recs then recs[h].owners else {}) + {i})];
        left := false;
      } else {
        left := true;
        if h in recs {
          recs := recs[h := recs[h].(owners := recs[h].owners + {i})];
        }
      }
    }

    /** Gives up one key the owner does not want; the record goes when nobody is left. */
    method LetGo(ghost c: Claims<V>, i: Owner, h: Key)
      requires i in c && h !in c[i] && h in recs
      modifies this
      ensures At(recs, h) == KeyStep(c, i, h, At(old(recs), h))
      ensures forall k | k != h :: At(recs, k) == At(old(recs), k)
    {
      if i in recs[h].owners {
        var left := recs[h].owners - {i};
        if left != {} {
          recs := recs[h := recs[h].(owners := left)];
        } else {
          assert recs[h].owners == {i};
          recs := recs - {h};
        }
      }
    }

    /** Attaches the keys the owner wants, until the API fails on one of those in `bad`. */
    method AttachAll(ghost c: Claims<V>, i: Owner, wanted: set<Key>, agreed: map<Key, seq<V>>, bad: set<Key>)
      returns (deferred: bool, ok: bool, ghost done: set<Key>)
      requires i in c && wanted == c[i].Keys
      requires forall h <- wanted :: Lists(if h in agreed then agreed[h] else [], Votes(c, h))
      modifies this
      ensures forall h :: At(recs, h) == Partly(c, i, old(recs), done, h)
      ensures done <= wanted && (ok <==> wanted !! bad) && (ok ==> done == wanted)
      ensures deferred <==> exists h <- done :: !Settled(c, h)
    {
      hide KeyStep, Lists, Settled;
      ghost var before := recs;
      deferred, ok, done := false, true, {};
      var rest := wanted;
      while rest != {}
        invariant rest <= wanted && done == wanted - rest && done !! bad
        invariant forall h :: At(recs, h) == Partly(c, i, before, done, h)
        invariant deferred <==> exists h <- done :: !Settled(c, h)
      {
        var h :| h in rest;
        if h in bad { ok := false; return; }
        var left := Attach(c, i, h, if h in agreed then agreed[h] else []);
        deferred := deferred || left;
        rest, done := rest - {h}, done + {h};
      }
    }

    /** Gives up the keys the owner does not want, until the API fails on one of those in `bad`. */
    method LetGoAll(ghost c: Claims<V>, i: Owner, wanted: set<Key>, ghost before: Store<V>, bad: set<Key>)
      returns (ok: bool, ghost done: set<Key>)
      requires i in c && wanted == c[i].Keys
      requires forall h :: At(recs, h) == Partly(c, i, before, wanted, h)
      modifies this
      ensures wanted <= done
      ensures forall h :: At(recs, h) == Partly(c, i, before, done, h)
      ensures ok <==> forall h <- before | h !in wanted && i in before[h].owners :: h !in bad
      ensures ok ==> forall h | h in before :: h in done
    {
      hide KeyStep;
      ok, done := true, wanted;
      var rest := recs.Keys - wanted;
      forall h | h !in wanted ensures h in before <==> h in rest { assert At(recs, h) == At(before, h); }
      while rest != {}
        invariant rest <= recs.Keys && rest !! done && wanted <= done
        invariant forall h | h in rest :: h in before
        invariant forall h | h in before :: h in rest || h in done
        invariant forall h | h in before && h in done && h !in wanted && i in before[h].owners :: h !in bad
        invariant forall h :: At(recs, h) == Partly(c, i, before, done, h)
      {
        var h :| h in rest;
        assert At(recs, h) == At(before, h);
        if i in recs[h].owners && h in bad { ok := false; return; }
        ghost var was := recs;
        LetGo(c, i, h);
        rest, done := rest - {h}, done + {h};
        forall k | k in rest ensures k in recs { assert At(recs, k) == At(was, k); }
      }
    }

    /**
     * One reconcile. `agreed` holds for each key the different values stated, in the order in which
     * they were met; `deferred` says whether some key is still open. It stops at the first key whose
     * object the API refuses to touch: what has been done by then stays done.
     */
    method Reconcile(ghost c: Claims<V>, i: Owner, wanted: set<Key>, agreed: map<Key, seq<V>>, bad: set<Key>)
      returns (deferred: bool, ok: bool, ghost done: set<Key>)
      requires i in c && wanted == c[i].Keys
      requires forall h <- wanted :: Lists(if h in agreed then agreed[h] else [], Votes(c, h))
      modifies this
      ensures recs == CutShort(c, i, old(recs), done)
      ensures ok ==> recs == Reconciled(c, i, old(recs)) && (deferred <==> exists h <- wanted :: !Settled(c, h))
      ensures ok <==> wanted !! bad && forall h <- old(recs) | h !in wanted && i in old(recs)[h].owners :: h !in bad
    {
      hide KeyStep, Lists, Settled, Partly;
      ghost var before := recs;
      deferred, ok, done := AttachAll(c, i, wanted, agreed, bad);
      if ok {
        ok, done := LetGoAll(c, i, wanted, before, bad);
      }
      NothingElse(c, i, recs, before, done);
    }
  }

  /** Keys that had no record and are not wanted have nothing left to be done. */
  lemma NothingElse<V>(c: Claims<V>, i: Owner, s: Store<V>, before: Store<V>, done: set<Key>)
    requires i in c
    requires forall h :: At(s, h) == Partly(c, i, before, done, h)
    ensures s == CutShort(c, i, before, done)
    ensures c[i].Keys <= done && (forall h | h !in c[i] :: h in done || h !in before) ==> s == Reconciled(c, i, before)
  {
    forall h ensures At(s, h) == At(CutShort(c, i, before, done), h) { CutShortAt(c, i, before, done, h); }
    SameStore(s, CutShort(c, i, before, done));
    if c[i].Keys <= done && forall h | h !in c[i] :: h in done || h !in before {
      forall h ensures At(s, h) == At(Reconciled(c, i, before), h) {
        ReconciledAt(c, i, before, h);
        assert h in done || h !in before;
      }
      SameStore(s, Reconciled(c, i, before));
    }
  }

  /** A list of the members of a set, each once. */
  ghost predicate Lists<V>(list: seq<V>, s: set<V>) {
    && (forall x <- list :: x in s)
    && (forall x <- s :: x in list)
    && (forall a, b | 0 <= a < b < |list| :: list[a] != list[b])
  }

  lemma {:induction false} ListsSize<V>(list: seq<V>, s: set<V>)
    requires Lists(list, s)
    ensures |list| == |s|
    decreases |list|
  {
    if list == [] {
      assert s == {};
    } else {
      var x, rest := list[0], list[1..];
      assert list == [x] + rest;
      ListsSize(rest, s - {x});
      assert s == (s - {x}) + {x};
    }
  }

  lemma SameStore<V>(a: Store<V>, b: Store<V>)
    requires forall h :: At(a, h) == At(b, h)
    ensures a == b
  {
    forall h ensures h in a <==> h in b { assert At(a, h) == At(b, h); }
    forall h | h in a ensures a[h] == b[h] { assert At(a, h) == At(b, h); }
  }

  // ----- runs -----

  /** A reconcile, one cut short, any change of what is declared, or a garbage collection. */
  datatype Step<V> = Reconcile(i: Owner) | Cut(i: Owner, done: set<Key>) | Change(claims: Claims<V>) | Collect

  datatype State<V> = State(claims: Claims<V>, store: Store<V>)

  /** Drops references to owners that are gone, and records that thereby lose their last one. */
  function Collected<V>(c: Claims<V>, s: Store<V>): Store<V> {
    map h | h in s && (s[h].owners == {} || s[h].owners * c.Keys != {})
      :: s[h].(owners := s[h].owners * c.Keys)
  }

  ghost function Do<V>(st: State<V>, step: Step<V>): State<V> {
    match step
    case Reconcile(i) => st.(store := Reconciled(st.claims, i, st.store))
    case Cut(i, done) => st.(store := CutShort(st.claims, i, st.store, done))
    case Change(claims) => st.(claims := claims)
    case Collect => st.(store := Collected(st.claims, st.store))
  }

  ghost function Run<V>(st: State<V>, steps: seq<Step<V>>): State<V>
    decreases |steps|
  {
    if steps == [] then st else Run(Do(st, steps[0]), steps[1..])
  }

  /** Owner i declares h and is among the owners of its record. */
  ghost predicate Holds<V>(st: State<V>, i: Owner, h: Key) {
    Declares(st.claims, i, h) && h in st.store && i in st.store[h].owners
  }

  /** The owner goes on declaring the key, whatever else is edited. */
  ghost predicate KeepsDeclaring<V>(step: Step<V>, i: Owner, h: Key) {
    step.Change? ==> Declares(step.claims, i, h)
  }

  lemma SurvivalStep<V>(st: State<V>, step: Step<V>, i: Owner, h: Key)
    requires Holds(st, i, h) && KeepsDeclaring(step, i, h)
    ensures var st' := Do(st, step);
            && Holds(st', i, h)
            && (st'.store[h].value == st.store[h].value || Agreed(st.claims, h, st'.store[h].value))
  {
    if step.Reconcile? {
      ReconciledAt(st.claims, step.i, st.store, h);
      assert At(Do(st, step).store, h).Some?;
    } else if step.Cut? {
      CutShortAt(st.claims, step.i, st.store, step.done, h);
      assert At(Do(st, step).store, h).Some?;
    } else if step.Collect? {
      assert i in st.store[h].owners * st.claims.Keys;
    }
  }

  /** The claims in force at some moment of a run. */
  ghost predicate InForce<V>(st: State<V>, steps: seq<Step<V>>, c: Claims<V>)
    decreases |steps|
  {
    c == st.claims || (steps != [] && InForce(Do(st, steps[0]), steps[1..], c))
  }

  /**
   * A record is never deleted while an owner it has goes on declaring it, over every interleaving of
   * reconciles, edits of other owners and collections; and its value is the old one or one that at
   * some moment was the only one stated.
   */
  lemma {:induction false} RecordSurvives<V>(st: State<V>, steps: seq<Step<V>>, i: Owner, h: Key)
    requires Holds(st, i, h)
    requires forall step <- steps :: KeepsDeclaring(step, i, h)
    ensures var st' := Run(st, steps);
            && Holds(st', i, h)
            && (st'.store[h].value == st.store[h].value
                || exists c :: InForce(st, steps, c) && Agreed(c, h, st'.store[h].value))
    decreases |steps|
  {
    hide Do, Agreed;
    if steps != [] {
      var st1 := Do(st, steps[0]);
      SurvivalStep(st, steps[0], i, h);
      RecordSurvives(st1, steps[1..], i, h);
      var v := Run(st, steps).store[h].value;
      if v != st1.store[h].value {
        var c :| InForce(st1, steps[1..], c) && Agreed(c, h, v);
        assert InForce(st, steps, c);
      } else if v != st.store[h].value {
        assert InForce(st, steps, st.claims) && Agreed(st.claims, h, v);
      }
    }
  }

  /** While the owners disagree, or none has a value, the record is not rewritten at all. */
  lemma {:induction false} UnsettledKeepsValue<V>(st: State<V>, steps: seq<Step<V>>, i: Owner, h: Key)
    requires Holds(st, i, h)
    requires forall step <- steps :: KeepsDeclaring(step, i, h)
    requires forall c | InForce(st, steps, c) :: !Settled(c, h)
    ensures Holds(Run(st, steps), i, h)
    ensures Run(st, steps).store[h].value == st.store[h].value
  {
    RecordSurvives(st, steps, i, h);
    forall c, v | InForce(st, steps, c) ensures !Agreed(c, h, v) {
      AgreedIsSettled(c, h, v);
    }
  }

  lemma AgreedIsSettled<V>(c: Claims<V>, h: Key, v: V)
    ensures Agreed(c, h, v) ==> Settled(c, h)
  {}

  // ----- convergence -----

  ghost function Pass<V>(c: Claims<V>, order: seq<Owner>, s: Store<V>): Store<V>
    decreases |order|
  {
    if order == [] then s else Pass(c, order[1..], Reconciled(c, order[0], s))
  }

  /** Every record is owned by those who declare it, and every agreed key has its record and value. */
  ghost predicate Stable<V>(c: Claims<V>, s: Store<V>) {
    && (forall h <- s :: s[h].owners == Declarers(c, h))
    && (forall h | Settled(c, h) :: h in s && Agreed(c, h, s[h].value))
  }

  /** The same, as far as the owners already reconciled are concerned. */
  ghost predicate Progress<V>(c: Claims<V>, s: Store<V>, done: set<Owner>) {
    && (forall h <- s :: s[h].owners <= c.Keys && s[h].owners * done == Declarers(c, h) * done)
    && (forall h | Settled(c, h) && Declarers(c, h) * done != {} :: h in s && Agreed(c, h, s[h].value))
  }

  lemma ProgressStep<V>(c: Claims<V>, s: Store<V>, done: set<Owner>, i: Owner)
    requires Progress(c, s, done) && i in c
    ensures Progress(c, Reconciled(c, i, s), done + {i})
  {
    hide Settled, Agreed;
    var s' := Reconciled(c, i, s);
    forall h | h in s'
      ensures s'[h].owners <= c.Keys && s'[h].owners * (done + {i}) == Declarers(c, h) * (done + {i})
    {
      ReconciledAt(c, i, s, h);
      assert At(s', h) == Some(s'[h]);
      OwnersStep(c, s, done, i, h, s'[h]);
    }
    forall h | Settled(c, h) && Declarers(c, h) * (done + {i}) != {}
      ensures h in s' && Agreed(c, h, s'[h].value)
    {
      ReconciledAt(c, i, s, h);
      if h !in c[i] {
        assert Declarers(c, h) * done == Declarers(c, h) * (done + {i});
        assert s[h].owners * done != {};
      }
      assert At(s', h).Some?;
    }
  }

  lemma OwnersStep<V>(c: Claims<V>, s: Store<V>, done: set<Owner>, i: Owner, h: Key, r: Rec<V>)
    requires Progress(c, s, done) && i in c
    requires KeyStep(c, i, h, At(s, h)) == Some(r)
    ensures r.owners <= c.Keys && r.owners * (done + {i}) == Declarers(c, h) * (done + {i})
  {
    hide Votes, Settled, Agreed, TheVote;
    var d := Declarers(c, h);
    var o := if h in s then s[h].owners else {};
    assert o * done == d * done by {
      if h !in s { assert d * done == {}; }
    }
    if h in c[i] {
      assert r.owners == o + {i} && i in d;
      OwnerJoins(o, d, done, i);
    } else {
      assert r.owners == o - {i} && i !in d;
      OwnerLeaves(o, d, done, i);
    }
  }

  lemma OwnerJoins(o: set<Owner>, d: set<Owner>, done: set<Owner>, i: Owner)
    requires o * done == d * done && i in d
    ensures (o + {i}) * (done + {i}) == d * (done + {i})
  {
    assert (o + {i}) * (done + {i}) == o * done + {i};
    assert d * (done + {i}) == d * done + {i};
  }

  lemma OwnerLeaves(o: set<Owner>, d: set<Owner>, done: set<Owner>, i: Owner)
    requires o * done == d * done && i !in d
    ensures (o - {i}) * (done + {i}) == d * (done + {i})
  {
    assert (o - {i}) * (done + {i}) == o * done - {i};
    assert d * (done + {i}) == d * done - {i};
  }

  lemma {:induction false} PassProgress<V>(c: Claims<V>, order: seq<Owner>, s: Store<V>, done: set<Owner>)
    requires Progress(c, s, done) && forall i <- order :: i in c
    ensures Progress(c, Pass(c, order, s), done + set i | i in order)
    decreases |order|
  {
    hide Progress, Reconciled;
    if order == [] {
      assert done + (set i | i in order) == done;
    } else {
      ProgressStep(c, s, done, order[0]);
      PassProgress(c, order[1..], Reconciled(c, order[0], s), done + {order[0]});
      assert order == [order[0]] + order[1..];
      assert done + (set i | i in order) == (done + {order[0]}) + set i | i in order[1..];
    }
  }

  /**
   * With what is declared fixed and records owned by declared owners only, one reconcile of each
   * owner, in whatever order and however often, leaves every record owned by exactly those who
   * declare it and every agreed key with a record of the agreed value.
   */
  lemma AnyPassStabilises<V>(c: Claims<V>, order: seq<Owner>, s: Store<V>)
    requires forall h <- s :: s[h].owners <= c.Keys
    requires forall i <- order :: i in c
    requires forall i <- c :: i in order
    ensures Stable(c, Pass(c, order, s))
  {
    hide Settled, Agreed, Pass;
    PassProgress(c, order, s, {});
    var s' := Pass(c, order, s);
    assert {} + (set i | i in order) == c.Keys;
    forall h | h in s' ensures s'[h].owners == Declarers(c, h) {
      assert s'[h].owners * c.Keys == s'[h].owners && Declarers(c, h) * c.Keys == Declarers(c, h);
    }
    forall h | Settled(c, h) ensures Declarers(c, h) * c.Keys != {} {
      SettledHasDeclarer(c, h);
    }
  }

  lemma SettledHasDeclarer<V>(c: Claims<V>, h: Key)
    requires Settled(c, h)
    ensures Declarers(c, h) * c.Keys != {}
  {
    var v := TheVote(c, h);
    assert v in Votes(c, h);
    var i :| i in c && h in c[i] && c[i][h] == Some(v);
    assert i in Declarers(c, h) * c.Keys;
  }

  lemma StableFixed<V>(c: Claims<V>, i: Owner, s: Store<V>)
    requires Stable(c, s)
    ensures Reconciled(c, i, s) == s
  {
    hide Settled;
    if i in c {
      forall h ensures At(s, h) == At(Reconciled(c, i, s), h) {
        ReconciledAt(c, i, s, h);
        if h in s { assert i in s[h].owners <==> h in c[i]; }
        if Settled(c, h) && h in c[i] {
          assert Agreed(c, h, s[h].value) && Agreed(c, h, TheVote(c, h));
          assert TheVote(c, h) in {s[h].value};
          assert s[h].owners + {i} == s[h].owners;
        } else if h in s && h in c[i] {
          assert s[h].owners + {i} == s[h].owners;
        }
      }
      SameStore(s, Reconciled(c, i, s));
    }
  }

  /** From then on no reconcile of any owner, in any order, rewrites anything: rewriting ends. */
  lemma {:induction false} StableForever<V>(c: Claims<V>, order: seq<Owner>, s: Store<V>)
    requires Stable(c, s)
    ensures Pass(c, order, s) == s
    decreases |order|
  {
    hide Stable, Reconciled;
    if order != [] {
      StableFixed(c, order[0], s);
      StableForever(c, order[1..], s);
    }
  }
}
