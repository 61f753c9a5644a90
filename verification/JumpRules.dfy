/** What the walk over the destinations of one jump adds up to, destination by destination. */
module JumpRules {
  import opened Basics
  import opened Sets
  import opened AbstractValues
  import opened Machine
  import opened Transfers

  /** The call ends the path: a stop call or an exceptional function. */
  ghost predicate Ends(p: Program, o: Options, t: int)
    requires t in p.owner
  {
    t in o.stopCalls || p.owner[t] in p.exceptional
  }

  /** The destination runs in the caller's frame. */
  ghost predicate Follows(p: Program, o: Options, s: Site, t: int) {
    && t in p.owner && !Ends(p, o, t)
    && (p.owner[t] == s.owner || s.rd == 0 || s.rd == 5 || (o.inlineCalls && t !in o.summaries))
  }

  /** The destination is a callee with an analysis of its own. */
  ghost predicate Enters(p: Program, o: Options, s: Site, t: int) {
    && t in p.owner && !Ends(p, o, t)
    && p.owner[t] != s.owner && s.rd != 0 && s.rd != 5 && (!o.inlineCalls || t in o.summaries)
  }

  /** What a register holds when destination `n` is looked at. */
  ghost function RegAt(p: Program, o: Options, s: Site, regs: Regs, ts: seq<int>, n: nat, r: Reg): AVal
    requires n <= |ts|
  {
    if r == s.rd && r != 0 && (exists i :: 0 <= i < n && (Follows(p, o, s, ts[i]) || Enters(p, o, s, ts[i])))
    then Vals({s.next})
    else if r in {1, 5, 6, 7, 10, 11, 12, 13, 14, 15, 16, 17, 28, 29, 30, 31}
            && exists i :: 0 <= i < n && Enters(p, o, s, ts[i])
    then Top
    else regs[r]
  }

  /** How many stages are among the first `n` destinations. */
  ghost function StagesAmong(o: Options, ts: seq<int>, n: nat): nat
    requires n <= |ts|
  {
    |set i | 0 <= i < n && ts[i] in o.stages|
  }

  /** The destination is not a body, is the function's own entry, has unknown arguments, or is a stage out of turn. */
  ghost predicate Blocked(p: Program, o: Options, s: Site, regs: Regs, phase: nat, ts: seq<int>, n: nat)
    requires n < |ts|
  {
    var t := ts[n];
    || t !in p.owner
    || (t == s.owner && s.rd in {0, 1, 5})
    || (p.owner[t] in p.once
        && (RegAt(p, o, s, regs, ts, n, 10).Top? || RegAt(p, o, s, regs, ts, n, 11).Top?))
    || (t in o.stages && !FirstAt(o.stages, t, phase + StagesAmong(o, ts, n)))
  }

  /** The first place of `t` in the list is `n`. */
  ghost predicate FirstAt(q: seq<int>, t: int, n: nat) {
    n < |q| && q[n] == t && forall i :: 0 <= i < n ==> q[i] != t
  }

  ghost predicate Registers(p: Program, o: Options, s: Site, regs: Regs, ts: seq<int>, n: nat, out: Regs)
    requires n <= |ts|
  {
    forall r :: 0 <= r < 32 ==> out[r] == RegAt(p, o, s, regs, ts, n, r)
  }

  /** Following a destination continues there; entering one continues behind the jump. */
  ghost predicate Leads(p: Program, o: Options, s: Site, t: int, x: int) {
    (Follows(p, o, s, t) && x == t) || (Enters(p, o, s, t) && x == s.next)
  }

  ghost predicate Targets(p: Program, o: Options, s: Site, ts: seq<int>, n: nat, targets: set<int>)
    requires n <= |ts|
  {
    forall x :: x in targets <==> exists i :: 0 <= i < n && Leads(p, o, s, ts[i], x)
  }

  ghost predicate Callee(p: Program, o: Options, s: Site, regs: Regs, ts: seq<int>, i: nat, k: Key)
    requires i < |ts|
  {
    && Enters(p, o, s, ts[i]) && k.address == ts[i]
    && k.callback == if p.owner[ts[i]] in p.once then RegAt(p, o, s, regs, ts, i, 11) else Top
  }

  ghost predicate Callees(p: Program, o: Options, s: Site, regs: Regs, ts: seq<int>, n: nat, calls: seq<Key>)
    requires n <= |ts|
  {
    forall k :: k in calls <==> exists i :: 0 <= i < n && Callee(p, o, s, regs, ts, i, k)
  }

  /** Calls and tail jumps to the entry of another function are edges, whether or not they are followed. */
  ghost predicate Links(p: Program, s: Site, t: int) {
    s.rd in {0, 1, 5} && t in p.owner && p.owner[t] == t && t != s.owner
  }

  ghost predicate Edges(p: Program, s: Site, ts: seq<int>, n: nat, edges: set<(int, int)>)
    requires n <= |ts|
  {
    forall e :: e in edges <==> exists i :: 0 <= i < n && Links(p, s, ts[i]) && e == (s.owner, ts[i])
  }

  /** Nothing among the first `n` destinations is refused, and the walk has gathered what they bring. */
  ghost predicate Gathered(p: Program, o: Options, s: Site, regs: Regs, phase: nat, ts: seq<int>, n: nat, j: Jump)
    requires n <= |ts|
  {
    && j.Jump?
    && Registers(p, o, s, regs, ts, n, j.regs)
    && Targets(p, o, s, ts, n, j.targets)
    && j.phase == phase + StagesAmong(o, ts, n)
    && Callees(p, o, s, regs, ts, n, j.calls)
    && Edges(p, s, ts, n, j.edges)
  }

  lemma {:induction false} FirstIndex(q: seq<int>, t: int, n: nat)
    requires t in q
    ensures FirstAt(q, t, n) <==> n == IndexOf(q, t)
  {
    if q[0] != t {
      var rest := q[1..];
      assert forall i :: 0 <= i < |rest| ==> rest[i] == q[i + 1];
      if n > 0 {
        FirstIndex(rest, t, n - 1);
        if FirstAt(rest, t, n - 1) {
          forall i | 0 <= i < n ensures q[i] != t {
            assert i > 0 ==> rest[i - 1] == q[i];
          }
        }
      }
    }
  }

  /** One destination: when it is refused, and what it adds otherwise. */
  lemma JumpToMeans(p: Program, o: Options, s: Site, j: Jump, t: int)
    requires j.Jump?
    ensures var k := JumpTo(p, o, s, j, t);
            if t !in p.owner || (t == s.owner && s.rd in {0, 1, 5})
               || (p.owner[t] in p.once && (j.regs[10].Top? || j.regs[11].Top?))
               || (t in o.stages && !FirstAt(o.stages, t, j.phase))
            then k.Refused?
            else
              && k.Jump?
              && k.phase == j.phase + (if t in o.stages then 1 else 0)
              && k.targets == j.targets + (if Follows(p, o, s, t) then {t}
                                           else if Enters(p, o, s, t) then {s.next} else {})
              && k.calls == j.calls + (if Enters(p, o, s, t)
                                       then [Key(t, if p.owner[t] in p.once then j.regs[11] else Top)] else [])
              && k.edges == j.edges + (if Links(p, s, t) then {(s.owner, t)} else {})
              && forall r :: 0 <= r < 32 ==> k.regs[r] == RegAfter(p, o, s, j.regs, t, r)
  {
    if t in o.stages {
      FirstIndex(o.stages, t, j.phase);
    }
    hide FirstAt, IndexOf;
    var c := Clobber(j.regs);
    assert forall r :: 0 <= r < 32 ==> c[r] == if CallerSaved(r) then Top else j.regs[r];
    hide Clobber;
  }

  /** A register behind one destination. */
  ghost function RegAfter(p: Program, o: Options, s: Site, regs: Regs, t: int, r: Reg): AVal {
    if r == s.rd && r != 0 && (Follows(p, o, s, t) || Enters(p, o, s, t)) then Vals({s.next})
    else if r in {1, 5, 6, 7, 10, 11, 12, 13, 14, 15, 16, 17, 28, 29, 30, 31} && Enters(p, o, s, t) then Top
    else regs[r]
  }

  lemma RegNext(p: Program, o: Options, s: Site, regs: Regs, ts: seq<int>, n: nat, now: Regs)
    requires n < |ts| && Registers(p, o, s, regs, ts, n, now)
    ensures forall r :: 0 <= r < 32 ==>
              RegAfter(p, o, s, now, ts[n], r) == RegAt(p, o, s, regs, ts, n + 1, r)
  {
    hide Follows, Enters;
    assert (exists i :: 0 <= i < n + 1 && Enters(p, o, s, ts[i])) <==>
           (exists i :: 0 <= i < n && Enters(p, o, s, ts[i])) || Enters(p, o, s, ts[n]);
    assert (exists i :: 0 <= i < n + 1 && (Follows(p, o, s, ts[i]) || Enters(p, o, s, ts[i]))) <==>
           (exists i :: 0 <= i < n && (Follows(p, o, s, ts[i]) || Enters(p, o, s, ts[i])))
           || Follows(p, o, s, ts[n]) || Enters(p, o, s, ts[n]);
  }

  lemma StagesNext(o: Options, ts: seq<int>, n: nat)
    requires n < |ts|
    ensures StagesAmong(o, ts, n + 1) == StagesAmong(o, ts, n) + if ts[n] in o.stages then 1 else 0
  {
    var a, b := set i | 0 <= i < n && ts[i] in o.stages, set i | 0 <= i < n + 1 && ts[i] in o.stages;
    assert b == a + if ts[n] in o.stages then {n} else {};
  }

  /** One more destination is refused exactly when it is blocked, and is gathered otherwise. */
  lemma GatheredNext(p: Program, o: Options, s: Site, regs: Regs, phase: nat, ts: seq<int>, n: nat, j: Jump)
    requires n < |ts| && Gathered(p, o, s, regs, phase, ts, n, j)
    ensures JumpTo(p, o, s, j, ts[n]).Refused? <==> Blocked(p, o, s, regs, phase, ts, n)
    ensures JumpTo(p, o, s, j, ts[n]).Jump? ==>
              Gathered(p, o, s, regs, phase, ts, n + 1, JumpTo(p, o, s, j, ts[n]))
  {
    var t, k := ts[n], JumpTo(p, o, s, j, ts[n]);
    JumpToMeans(p, o, s, j, t);
    RegNext(p, o, s, regs, ts, n, j.regs);
    StagesNext(o, ts, n);
    hide JumpTo, RegAt, RegAfter, Follows, Enters, Links, FirstAt, StagesAmong;
    if k.Jump? {
      CalleesNext(p, o, s, regs, ts, n, j.calls, j.regs[11], k.calls);
      TargetsNext(p, o, s, ts, n, j.targets, k.targets);
      EdgesNext(p, s, ts, n, j.edges, k.edges);
    }
  }

  lemma CalleesNext(p: Program, o: Options, s: Site, regs: Regs, ts: seq<int>, n: nat, calls: seq<Key>, x11: AVal,
      more: seq<Key>)
    requires n < |ts| && Callees(p, o, s, regs, ts, n, calls) && x11 == RegAt(p, o, s, regs, ts, n, 11)
    requires ts[n] in p.owner
    requires more == calls + (if Enters(p, o, s, ts[n])
                              then [Key(ts[n], if p.owner[ts[n]] in p.once then x11 else Top)] else [])
    ensures Callees(p, o, s, regs, ts, n + 1, more)
  {
    hide Enters, RegAt;
    forall k ensures k in more <==> exists i :: 0 <= i < n + 1 && Callee(p, o, s, regs, ts, i, k) {
      assert k in more <==> k in calls || Callee(p, o, s, regs, ts, n, k);
    }
  }

  lemma TargetsNext(p: Program, o: Options, s: Site, ts: seq<int>, n: nat, targets: set<int>, more: set<int>)
    requires n < |ts| && Targets(p, o, s, ts, n, targets)
    requires more == targets + (if Follows(p, o, s, ts[n]) then {ts[n]}
                                else if Enters(p, o, s, ts[n]) then {s.next} else {})
    ensures Targets(p, o, s, ts, n + 1, more)
  {
    forall x ensures x in more <==> exists i :: 0 <= i < n + 1 && Leads(p, o, s, ts[i], x) {
      assert x in more <==> x in targets || Leads(p, o, s, ts[n], x);
    }
  }

  lemma EdgesNext(p: Program, s: Site, ts: seq<int>, n: nat, edges: set<(int, int)>, more: set<(int, int)>)
    requires n < |ts| && Edges(p, s, ts, n, edges)
    requires more == edges + (if Links(p, s, ts[n]) then {(s.owner, ts[n])} else {})
    ensures Edges(p, s, ts, n + 1, more)
  {
    hide Links;
    forall e ensures e in more <==> exists i :: 0 <= i < n + 1 && Links(p, s, ts[i]) && e == (s.owner, ts[i]) {
      assert e in more <==> e in edges || (Links(p, s, ts[n]) && e == (s.owner, ts[n]));
    }
  }

  /** The walk is refused exactly when some destination is blocked; otherwise it has gathered all of them. */
  lemma {:induction false} WalkMeans(p: Program, o: Options, s: Site, regs: Regs, phase: nat, ts: seq<int>, n: nat)
    requires n <= |ts|
    ensures var j := JumpAll(p, o, s, Jump(regs, {}, phase, [], {}), ts[..n]);
            && (j.Refused? <==> exists i :: 0 <= i < n && Blocked(p, o, s, regs, phase, ts, i))
            && (j.Jump? ==> Gathered(p, o, s, regs, phase, ts, n, j))
  {
    if n == 0 {
      NothingGathered(p, o, s, regs, phase, ts);
    } else {
      WalkMeans(p, o, s, regs, phase, ts, n - 1);
      assert ts[..n][..|ts[..n]| - 1] == ts[..n - 1];
      var j := JumpAll(p, o, s, Jump(regs, {}, phase, [], {}), ts[..n - 1]);
      hide Gathered, Blocked;
      if j.Jump? {
        GatheredNext(p, o, s, regs, phase, ts, n - 1, j);
      }
    }
  }

  /** Some destination is blocked when its turn comes. */
  ghost predicate SomeBlocked(p: Program, o: Options, s: Site, regs: Regs, phase: nat, ts: seq<int>) {
    exists i :: 0 <= i < |ts| && Blocked(p, o, s, regs, phase, ts, i)
  }

  lemma WholeWalk(p: Program, o: Options, s: Site, regs: Regs, phase: nat, ts: seq<int>)
    ensures var j := JumpAll(p, o, s, Jump(regs, {}, phase, [], {}), ts);
            && (j.Refused? <==> SomeBlocked(p, o, s, regs, phase, ts))
            && (j.Jump? ==> Gathered(p, o, s, regs, phase, ts, |ts|, j))
  {
    WalkMeans(p, o, s, regs, phase, ts, |ts|);
    assert ts[..|ts|] == ts;
  }

  lemma NothingGathered(p: Program, o: Options, s: Site, regs: Regs, phase: nat, ts: seq<int>)
    ensures Gathered(p, o, s, regs, phase, ts, 0, Jump(regs, {}, phase, [], {}))
  {
  }
}
