/** What a reconcile of a host record comes to when nothing fails, case by case. */
module HostOutcomes {
  import opened Text
  import opened Validation
  import opened HostTable
  import opened HostRecords
  import opened HostRuns
  import opened Terminal

  /** Record k as a reconcile leaves it, with everything else about the records as it was. */
  predicate Becomes(w: World, w': World, k: Key, r: Record)
    requires k in w.recs
  {
    w'.recs == w.recs[k := r]
  }

  /**
   * A live, finalized record whose pair is on the router, or for which there is room, is applied: its
   * name then has exactly its address, every pair of another name stays, and none is added.
   */
  lemma RoomMeansApplied(w: World, k: Key, max: int)
    requires TableOk(w.pairs) && k in w.recs && w.recs[k].finalizer && !w.recs[k].deleting
    requires HostnameOk(w.recs[k].hostname) && Ipv4Ok(w.recs[k].address)
    requires Pair(Lower(w.recs[k].hostname), w.recs[k].address) in w.pairs || |w.pairs| < max
    ensures var r, w' := w.recs[k], Reconciled(w, k, CALM, max);
            var n := Lower(r.hostname);
            && Becomes(w, w', k, r.(applied := true, reason := Applied))
            && AddrsOf(w'.pairs, n) == [r.address]
            && (forall a :: Pair(n, a) in w'.pairs <==> a == r.address)
            && (forall p: Pair | p.name != n :: p in w'.pairs <==> p in w.pairs)
            && (forall m | m != n :: AddrsOf(w'.pairs, m) == AddrsOf(w.pairs, m))
  {
    hide Exec, Sent, ExecAll, TableOk, HostnameOk, Ipv4Ok, Lower;
    var r := w.recs[k];
    ValidWords(r.hostname, r.address);
    HostConverges(w.pairs, r.hostname, r.address);
    var pairs' := ExecAll(w.pairs, Sent(w.pairs, r.hostname, r.address));
    assert Reconciled(w, k, CALM, max) == World(w.recs[k := r.(applied := true, reason := Applied)], pairs');
    forall n, a
      ensures (Pair(n, a) in pairs' <==> a in AddrsOf(pairs', n)) && (Pair(n, a) in w.pairs <==> a in AddrsOf(w.pairs, n))
    {
      AddrsOfMember(pairs', n, a);
      AddrsOfMember(w.pairs, n, a);
    }
    forall p: Pair | p.name != Lower(r.hostname) ensures p in pairs' <==> p in w.pairs {
      assert p == Pair(p.name, p.addr);
    }
  }

  /** A live, finalized record is turned away exactly when its pair is missing from a full table. */
  lemma NoRoomMeansLimit(w: World, k: Key, max: int)
    requires k in w.recs && w.recs[k].finalizer && !w.recs[k].deleting
    ensures var r, w' := w.recs[k], Reconciled(w, k, CALM, max);
            var full := Pair(Lower(r.hostname), r.address) !in w.pairs && |w.pairs| >= max;
            && (full ==> w'.pairs == w.pairs && Becomes(w, w', k, r.(applied := false, reason := LimitReached)))
            && (!full && HostnameOk(r.hostname) && Ipv4Ok(r.address) ==>
                  Becomes(w, w', k, r.(applied := true, reason := Applied)))
            && (!full && !(HostnameOk(r.hostname) && Ipv4Ok(r.address)) ==>
                  w'.pairs == w.pairs && Becomes(w, w', k, r.(reason := ApplyFailed)))
  {
    hide Exec, Sent, ExecAll, HostnameOk, Ipv4Ok, Lower;
    NoCommand(w.pairs);
  }

  /** A record that is new to the operator gets its finalizer and nothing else. */
  lemma NewRecordFinalized(w: World, k: Key, max: int)
    requires k in w.recs && !w.recs[k].finalizer && !w.recs[k].deleting
    ensures var w' := Reconciled(w, k, CALM, max);
            w'.pairs == w.pairs && Becomes(w, w', k, w.recs[k].(finalizer := true))
  {
    hide Exec, Sent, ExecAll, HostIpOk, Lower;
  }

  /** A deleted record with its finalizer goes, and of the table exactly its pair, if that is a valid one. */
  lemma DeletedRecordGoes(w: World, k: Key, max: int)
    requires TableOk(w.pairs) && k in w.recs && w.recs[k].finalizer && w.recs[k].deleting
    ensures var r, w' := w.recs[k], Reconciled(w, k, CALM, max);
            var gone := Pair(Lower(r.hostname), r.address);
            && w'.recs == w.recs - {k}
            && (forall p :: p in w'.pairs <==>
                  p in w.pairs && !(HostnameOk(r.hostname) && Ipv4Ok(r.address) && p == gone))
  {
    hide Exec, Sent, TableOk, HostnameOk, Ipv4Ok, Lower;
    var r := w.recs[k];
    NoCommand(w.pairs);
    if HostIpOk(r.hostname, r.address) {
      ValidWords(r.hostname, r.address);
      OneCommand(w.pairs, NoHostLine(r.hostname, r.address));
      ExecRemove(w.pairs, r.hostname, r.address);
      WithoutExactly(w.pairs, Lower(r.hostname), r.address);
    }
  }

  lemma {:induction false} WithoutExactly(pairs: seq<Pair>, n: string, a: string)
    ensures forall p :: p in Without(pairs, n, {a}) <==> p in pairs && p != Pair(n, a)
  {
    if pairs != [] {
      WithoutExactly(pairs[1..], n, a);
      assert pairs == [pairs[0]] + pairs[1..];
    }
  }

  /** A record that is not there, or is waiting for others to let it go, changes nothing. */
  lemma NothingToDo(w: World, k: Key, max: int)
    requires k in w.recs ==> w.recs[k].deleting && !w.recs[k].finalizer
    ensures Reconciled(w, k, CALM, max) == w
  {
    hide Exec, Sent, ExecAll, HostIpOk, Lower;
  }

  /**
   * From its creation, two reconciles without failures bring a valid record onto any router with room
   * for it.
   */
  lemma CreatedIsApplied(w: World, k: Key, host: string, ip: string, max: int)
    requires TableOk(w.pairs) && k !in w.recs && HostnameOk(host) && Ipv4Ok(ip)
    requires Pair(Lower(host), ip) in w.pairs || |w.pairs| < max
    ensures var w' := Do(Do(Do(w, Create(k, host, ip), max), Reconcile(k, CALM), max), Reconcile(k, CALM), max);
            && w'.recs == w.recs[k := Record(true, false, host, ip, true, Applied)]
            && AddrsOf(w'.pairs, Lower(host)) == [ip]
  {
    hide Reconciled, TableOk, HostnameOk, Ipv4Ok, Lower;
    var w1 := Do(w, Create(k, host, ip), max);
    NewRecordFinalized(w1, k, max);
    var w2 := Reconciled(w1, k, CALM, max);
    RoomMeansApplied(w2, k, max);
  }
}
