/**
 The begin/hook/end typestate: what an accepted staged analysis says about the order in which every in-scope
 run calls the stage functions.
 */
module StageProtocol {
  import opened Machine
  import opened Transfers
  import opened IntervalEngine
  import opened StepCoverage
  import opened StackBound

  ghost predicate StageCall(a: Analysis, c: Config, d: Config) {
    c.pc in a.p.instrs && IsJump(a.p.instrs[c.pc].op) && d.pc in a.root.options.stages
  }

  /** The stage functions the run jumped to, in order. */
  ghost function StageTrace(a: Analysis, run: seq<Config>): seq<int> {
    if |run| < 2 then []
    else
      var front := StageTrace(a, run[..|run| - 1]);
      if StageCall(a, run[|run| - 2], run[|run| - 1]) then front + [run[|run| - 1].pc] else front
  }

  /** The staged root, the outside return address, and a run from phase zero. */
  ghost predicate StagedRun(a: Analysis, base: seq<int>, run: seq<Config>) {
    && InScope(a, base, run)
    && DirectStages(a)
    && a.root.entry.phase == 0
    && base[1] !in a.root.options.stages && base[1] !in a.root.options.stopPcs
  }

  lemma TraceStep(a: Analysis, run: seq<Config>, i: nat)
    requires i + 1 < |run|
    ensures StageTrace(a, run[..i + 2]) ==
            StageTrace(a, run[..i + 1]) + (if StageCall(a, run[i], run[i + 1]) then [run[i + 1].pc] else [])
  {
    var longer := run[..i + 2];
    assert longer[..|longer| - 1] == run[..i + 1];
  }

  lemma PhaseExtendsTrace(o: Options, trace: seq<int>, before: nat, after: nat, target: int)
    requires trace <= o.stages && |trace| == before
    requires PhaseFollows(o, before, after, target)
    ensures var t := if target in o.stages then trace + [target] else trace;
            t <= o.stages && |t| == after
  {
  }

  /** Along the run the root's phase counts the stage calls made so far. */
  lemma {:induction false} PhaseCounts(a: Analysis, base: seq<int>, run: seq<Config>, i: nat)
    returns (stack: seq<Act>, returned: bool)
    requires Accepted(a) && StagedRun(a, base, run) && i < |run|
    ensures StageTrace(a, run[..i + 1]) <= a.root.options.stages
    ensures !returned ==> Describes(a, base, stack, run[i]) && Builds(a, base, run, i, stack)
                          && stack[0].loc.phase == |StageTrace(a, run[..i + 1])|
    ensures returned ==> i == |run| - 1 && run[i].pc == base[1]
                         && (a.root.options.stages != [] ==> |StageTrace(a, run[..i + 1])| != 2)
  {
    hide Accepted, ActOK, Suspended, TopDescribes, StoreInScope, RomIntact, StateDescribes, Step, DirectStages,
        ReturnRefused, Moves;
    if i == 0 {
      returned := false;
      stack := InitiallyDescribed(a, base, run[0]);
    } else {
      var k := i - 1;
      var before, over := PhaseCounts(a, base, run, k);
      var cut := CutOf(a.root.options);
      assert Step(a.p, cut, run[k], run[k + 1]);
      StepFromCode(a.p, cut, run[k], run[k + 1]);
      assert !over;
      stack, returned := Advance(a, base, before, run[k], run[k + 1]);
      TraceStep(a, run, k);
      var o, trace := a.root.options, StageTrace(a, run[..k + 1]);
      if returned {
        ReturnPhase(a, base, before, run[k]);
        if i < |run| - 1 {
          assert Step(a.p, cut, run[i], run[i + 1]);
          StepFromCode(a.p, cut, run[i], run[i + 1]);
          assert false;
        }
      } else if IsJump(a.p.instrs[run[k].pc].op) {
        PhaseExtendsTrace(o, trace, before[0].loc.phase, stack[0].loc.phase, run[i].pc);
      }
    }
  }

  lemma ReturnPhase(a: Analysis, base: seq<int>, stack: seq<Act>, c: Config)
    requires Accepted(a) && Describes(a, base, stack, c) && |stack| == 1
    requires stack[0].loc in a.root.states && !ReturnRefused(a.root.options, a.root.entry, a.root.states[stack[0].loc])
    ensures a.root.options.stages != [] ==> stack[0].loc.phase != 2
  {
    hide Transfer, StateDescribes, AllDisciplined, Certified;
  }

  /**
   The calls to stage functions form a prefix of the declared order; a run never returns between hook and end,
   and it reaches the cut only after every stage.
   */
  lemma StagesInOrder(a: Analysis, base: seq<int>, run: seq<Config>)
    requires Accepted(a) && StagedRun(a, base, run)
    ensures StageTrace(a, run) <= a.root.options.stages
    ensures a.root.options.stages != [] && run[|run| - 1].pc == base[1] ==> |StageTrace(a, run)| != 2
    ensures a.root.options.stages != [] && run[|run| - 1].pc in a.root.options.stopPcs ==>
              StageTrace(a, run) == a.root.options.stages
  {
    hide Accepted, Describes, StateDescribes, Step, DirectStages, MemoryInScope;
    var n := |run| - 1;
    var stack, returned := PhaseCounts(a, base, run, n);
    assert run[..n + 1] == run;
    if !returned {
      EndOfRun(a, base, stack, run[n]);
    }
  }

  lemma EndOfRun(a: Analysis, base: seq<int>, stack: seq<Act>, c: Config)
    requires Accepted(a) && DirectStages(a) && Describes(a, base, stack, c)
    ensures c.pc in a.root.options.stopPcs || c.pc in a.p.instrs
    ensures c.pc in a.root.options.stopPcs && a.root.options.stages != [] ==>
              stack[0].loc.phase == |a.root.options.stages|
  {
    hide Closed, Certified, StateDescribes, AllDisciplined, WellFormed, JumpOutcome, Execute;
    var top := stack[|stack| - 1];
    var out := TopSettled(a, base, stack, c);
    assert ActOK(a, base, top);
    if |stack| > 1 {
      NestedOffCut(a, top.cert, top.loc);
    }
  }

  lemma NestedOffCut(a: Analysis, c: Cert, l: Loc)
    requires DirectStages(a) && Nested(a, c) && l in c.states
    ensures l.pc !in a.root.options.stopPcs
  {
    var k :| k in a.certs && a.certs[k] == c;
    assert l in a.certs[k].states;
  }
}
