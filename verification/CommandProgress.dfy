/** What becomes of a posted command while the target lives and nobody detaches: the tracer takes it from the front of
    the queue, performs it, and its caller gets the value. */
module CommandProgress {
  import opened CommandQueue

  /** The tracer with the front command to take: one step takes it, the next completes it as performed. */
  lemma FrontIsPerformed(s: State, e1: Exit, v1: int, e2: Exit, v2: int)
    requires s.tracer.Draining? && s.commands != []
    ensures var s1 := Next(s, TracerStep(e1, v1));
      && s1.tracer == Performing(s.commands[0]) && s1.commands == s.commands[1..] && s1.completions == s.completions
      && var s2 := Next(s1, TracerStep(e2, v2));
         && s2.tracer == LoopHead && s2.commands == s.commands[1..]
         && s2.completions == s.completions + [Completion(s.commands[0], v2, true)]
  {
  }

  /** Nobody detaches, and no poll of the target finds it gone. */
  predicate Lives(steps: seq<Step>) {
    forall i :: 0 <= i < |steps| ==> !steps[i].Detach? && (steps[i].TracerStep? ==> steps[i].exited.Alive?)
  }

  predicate Serving(s: State) {
    s.attached && !s.tracer.Cleaning? && !s.tracer.Flushing? && !s.tracer.Ended?
  }

  /** The tracer's own steps before it looks at the queue again. */
  function UntilDrain(t: Tracer): nat {
    match t
    case Draining => 0
    case LoopHead => 1
    case Performing(_) => 2
    case Polling => 2
    case _ => 0
  }

  /** Step `j` performs the command, and its completion carries the value that step returned. */
  ghost predicate PerformedAt(s: State, steps: seq<Step>, id: PostId, j: nat) {
    && j < |steps| && steps[j].TracerStep?
    && Run(s, steps[..j]).tracer == Performing(id)
    && Completion(id, steps[j].value, true) in Run(s, steps).completions
  }

  ghost predicate PerformedBy(s: State, steps: seq<Step>, id: PostId) {
    exists j: nat :: PerformedAt(s, steps, id, j)
  }

  lemma {:induction false} CompletionsStay(s: State, steps: seq<Step>, c: Completion)
    requires c in s.completions
    ensures c in Run(s, steps).completions
    decreases |steps|
  {
    if steps != [] {
      CompletionsStay(Next(s, steps[0]), steps[1..], c);
    }
  }

  lemma LaterStep(s: State, steps: seq<Step>, id: PostId)
    requires steps != [] && PerformedBy(Next(s, steps[0]), steps[1..], id)
    ensures PerformedBy(s, steps, id)
  {
    hide Next;
    var j: nat :| PerformedAt(Next(s, steps[0]), steps[1..], id, j);
    assert steps[..j + 1][0] == steps[0] && steps[..j + 1][1..] == steps[1..][..j];
    assert PerformedAt(s, steps, id, j + 1);
  }

  /** A command in hand is completed by the tracer's next step. */
  lemma {:induction false} InHandIsPerformed(s: State, steps: seq<Step>, id: PostId)
    requires s.tracer == Performing(id) && TracerSteps(steps) >= 1
    ensures PerformedBy(s, steps, id)
    decreases |steps|
  {
    var s1 := Next(s, steps[0]);
    if steps[0].TracerStep? {
      CompletionsStay(s1, steps[1..], Completion(id, steps[0].value, true));
      assert steps[..0] == [];
      assert PerformedAt(s, steps, id, 0);
    } else {
      InHandIsPerformed(s1, steps[1..], id);
      LaterStep(s, steps, id);
    }
  }

  lemma OtherStepKeeps(s: State, step: Step, k: nat)
    requires Serving(s) && k < |s.commands| && !step.TracerStep? && !step.Detach?
    ensures var s1 := Next(s, step);
      Serving(s1) && s1.tracer == s.tracer && k < |s1.commands| && s1.commands[k] == s.commands[k]
  {
  }

  /** The command at position `k` of the queue is performed within 3k + 4 steps of the tracer, whatever the posters do
      meanwhile. */
  lemma {:induction false} QueuedIsPerformed(s: State, steps: seq<Step>, k: nat)
    requires Serving(s) && k < |s.commands| && Lives(steps)
    requires TracerSteps(steps) >= UntilDrain(s.tracer) + 3 * k + 2
    ensures PerformedBy(s, steps, s.commands[k])
    decreases |steps|
  {
    hide PerformedBy;
    var id := s.commands[k];
    var s1 := Next(s, steps[0]);
    assert Lives(steps[1..]) by {
      assert forall i :: 0 <= i < |steps| - 1 ==> steps[1..][i] == steps[i + 1];
    }
    if !steps[0].TracerStep? {
      OtherStepKeeps(s, steps[0], k);
      QueuedIsPerformed(s1, steps[1..], k);
    } else if s.tracer.Draining? {
      if k == 0 {
        InHandIsPerformed(s1, steps[1..], id);
      } else {
        QueuedIsPerformed(s1, steps[1..], k - 1);
      }
    } else {
      QueuedIsPerformed(s1, steps[1..], k);
    }
    LaterStep(s, steps, id);
  }

  // ----- a whole call -----

  lemma CallEnters(s: State, id: PostId)
    requires Inv(s) && s.attached && Pc(s, id).Arriving?
    ensures var s2 := Next(Next(s, CheckAttached(id)), Push(id));
      && Inv(s2) && Serving(s2) && s2.tracer == s.tracer && s2.commands == s.commands + [id]
  {
    NextKeepsInv(s, CheckAttached(id));
    NextKeepsInv(Next(s, CheckAttached(id)), Push(id));
    assert Closing(s);
  }

  /** A completed command's caller has its value, or gets it when it wakes. */
  lemma AnswerIsValue(s: State, id: PostId, value: int, performed: bool)
    requires Inv(s) && Completion(id, value, performed) in s.completions
    ensures Pc(WakeStep(s, id), id) == Returned(value)
  {
    var i :| 0 <= i < |s.completions| && s.completions[i] == Completion(id, value, performed);
    assert s.pushed[i] == Ids(s.completions)[i] == id;
    assert id in s.pushed;
    forall j | 0 <= j < |s.completions| && s.completions[j].id == id ensures j == i {
      assert s.pushed[j] == Ids(s.completions)[j] == id;
    }
    if Pc(s, id).Blocked? {
      assert Answered(s.completions, id);
    } else {
      assert HasValue(s.completions, id, Pc(s, id).value);
    }
  }

  /** A call made while the target is served is performed, once every command before it has been, and returns the value
      that performing it returned: three tracer steps for each command before it, and at most four. */
  lemma PostedIsPerformed(before: seq<Step>, id: PostId, steps: seq<Step>)
    requires Run(Start, before).attached && Pc(Run(Start, before), id).Arriving? && Lives(steps)
    requires TracerSteps(steps) >= 3 * |Run(Start, before).commands| + 4
    ensures var s := Next(Next(Run(Start, before), CheckAttached(id)), Push(id));
      exists j: nat :: PerformedAt(s, steps, id, j) && Pc(WakeStep(Run(s, steps), id), id) == Returned(steps[j].value)
  {
    hide Run, Inv, WakeStep, PerformedBy, Next;
    StartInv();
    RunKeepsInv(Start, before);
    var s0 := Run(Start, before);
    CallEnters(s0, id);
    var s := Next(Next(s0, CheckAttached(id)), Push(id));
    QueuedIsPerformed(s, steps, |s0.commands|);
    RunKeepsInv(s, steps);
    Performs(s, steps, id);
  }

  lemma Performs(s: State, steps: seq<Step>, id: PostId)
    requires PerformedBy(s, steps, id) && Inv(Run(s, steps))
    ensures exists j: nat :: PerformedAt(s, steps, id, j) && Pc(WakeStep(Run(s, steps), id), id) == Returned(steps[j].value)
  {
    hide Run, Inv, WakeStep;
    var j: nat :| PerformedAt(s, steps, id, j);
    AnswerIsValue(Run(s, steps), id, steps[j].value, true);
  }
}
