/** What the engine's walk over a jump's destinations leaves behind for each of them. */
module JumpCoverage {
  import opened Words
  import opened AbstractValues
  import opened Machine
  import opened Transfers
  import opened StepCoverage

  /** `regs` came from `before` by forgetting values and by linking. */
  ghost predicate RegsFrom(before: Regs, regs: Regs, s: Site) {
    forall r :: 0 <= r < 32 ==>
      || regs[r] == before[r]
      || (r == s.rd && r != 0 && regs[r] == Const(s.next))
      || (CallerSaved(r) && regs[r].Top?)
  }

  ghost predicate Linked(regs: Regs, s: Site) {
    s.rd != 0 ==> regs[s.rd] == Const(s.next)
  }

  ghost predicate Clobbered(regs: Regs, s: Site) {
    forall r :: 0 <= r < 32 && CallerSaved(r) && r != s.rd ==> regs[r].Top?
  }

  /** The destination was checked, and either followed, analysed as a callee, or left as out of the interval. */
  ghost predicate Handled(p: Program, o: Options, s: Site, before: Regs, j: Jump, t: int) {
    && j.Jump?
    && t in p.owner
    && (t in o.stopCalls || p.owner[t] in p.exceptional
        || (Linked(j.regs, s)
            && if Internal(p, o, s, t) then t in j.targets
               else s.next in j.targets && Clobbered(j.regs, s) && CallKey(p, t, before) in j.calls))
  }

  lemma HandledStep(p: Program, o: Options, s: Site, before: Regs, j: Jump, t: int, u: int)
    requires Linking(s.rd)
    requires j.Jump? && RegsFrom(before, j.regs, s)
    requires JumpTo(p, o, s, j, u).Jump?
    requires t == u || Handled(p, o, s, before, j, t)
    ensures RegsFrom(before, JumpTo(p, o, s, j, u).regs, s)
    ensures Handled(p, o, s, before, JumpTo(p, o, s, j, u), t)
  {
    var j' := JumpTo(p, o, s, j, u);
    var c := Clobber(j.regs);
    assert forall r :: 0 <= r < 32 ==> c[r] == if CallerSaved(r) then Top else j.regs[r];
    if t == u && p.owner[t] in p.once {
      assert j.regs[11] == before[11];
      assert CallKey(p, t, before) == CallKey(p, t, j.regs);
    }
  }

  lemma {:induction false} JumpAllHandles(p: Program, o: Options, s: Site, j: Jump, ts: seq<int>)
    requires Linking(s.rd)
    requires j.Jump? && JumpAll(p, o, s, j, ts).Jump?
    ensures RegsFrom(j.regs, JumpAll(p, o, s, j, ts).regs, s)
    ensures forall t :: t in ts ==> Handled(p, o, s, j.regs, JumpAll(p, o, s, j, ts), t)
  {
    if ts != [] {
      var front, u := ts[..|ts| - 1], ts[|ts| - 1];
      JumpAllHandles(p, o, s, j, front);
      var k := JumpAll(p, o, s, j, front);
      HandledStep(p, o, s, j.regs, k, u, u);
      forall t | t in ts ensures Handled(p, o, s, j.regs, JumpAll(p, o, s, j, ts), t) {
        if t != u {
          assert t in front;
          HandledStep(p, o, s, j.regs, k, t, u);
        }
      }
    }
  }

  /** How many of the destinations are stages. */
  function StagesIn(o: Options, ts: seq<int>): nat {
    if ts == [] then 0 else StagesIn(o, ts[..|ts| - 1]) + if ts[|ts| - 1] in o.stages then 1 else 0
  }

  /** Every stage among the destinations moves the phase by one. */
  lemma {:induction false} JumpAllPhase(p: Program, o: Options, s: Site, j: Jump, ts: seq<int>)
    requires j.Jump? && JumpAll(p, o, s, j, ts).Jump?
    ensures JumpAll(p, o, s, j, ts).phase == j.phase + StagesIn(o, ts)
  {
    if ts != [] {
      JumpAllPhase(p, o, s, j, ts[..|ts| - 1]);
    }
  }

  lemma {:induction false} StagesInNone(o: Options, ts: seq<int>)
    ensures StagesIn(o, ts) == 0 <==> forall t :: t in ts ==> t !in o.stages
  {
    if ts != [] {
      var front, last := ts[..|ts| - 1], ts[|ts| - 1];
      StagesInNone(o, front);
      assert forall t :: t in ts <==> t in front || t == last;
    }
  }

  lemma {:induction false} StagesInAll(o: Options, ts: seq<int>)
    ensures StagesIn(o, ts) <= |ts|
    ensures StagesIn(o, ts) == |ts| <==> forall t :: t in ts ==> t in o.stages
  {
    if ts != [] {
      var front, last := ts[..|ts| - 1], ts[|ts| - 1];
      StagesInAll(o, front);
      assert forall t :: t in ts <==> t in front || t == last;
    }
  }

  /** A lone destination that is a stage is the one expected. */
  lemma JumpOnePhase(p: Program, o: Options, s: Site, j: Jump, t: int)
    requires j.Jump? && JumpAll(p, o, s, j, [t]).Jump? && t in o.stages
    ensures j.phase < |o.stages| && o.stages[j.phase] == t
  {
    var front := [t][..0];
    assert front == [];
    assert JumpAll(p, o, s, j, [t]) == JumpTo(p, o, s, j, t);
  }

  /** Following the link: the machine's registers after the jump fit the engine's. */
  lemma LinkedDescribes(f: seq<int>, before: Regs, regs: Regs, s: Site, words: seq<int>)
    requires Frame(f) && Frame(words) && 0 <= s.next < WORD
    requires RegsDescribe(f, before, words)
    requires RegsFrom(before, regs, s) && Linked(regs, s)
    ensures RegsDescribe(f, regs, Write(words, s.rd, s.next))
  {
    var words' := Write(words, s.rd, s.next);
    forall r | 0 <= r < 32 ensures In(f, regs[r], words'[r]) {
      if r == s.rd && r != 0 {
        ConstCovers(f, s.next);
      } else {
        assert words'[r] == words[r];
        assert In(f, before[r], words[r]);
      }
    }
  }
}
