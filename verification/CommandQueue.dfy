/** How client threads hand commands to the tracer thread: a locked queue, an `attached` flag that
    anyone may clear without the lock, and a loop that drains the queue until the flag is clear and
    then fails whatever is left. Every step below is one critical section or one unlocked access; a
    run interleaves them in any order. */
module CommandQueue {

  /** One call of postCommand. */
  type PostId = nat

  /** Where a poster is: before the unlocked check, between it and the lock, blocked on its future,
      returned with the future's value, or returned with -1 without having pushed. */
  datatype Poster = Arriving | Admitted | Blocked | Returned(value: int) | Rejected

  datatype Tracer = LoopHead | Draining | Performing(id: PostId) | Polling | Cleaning | Flushing | Ended

  /** A promise that has been kept. */
  datatype Completion = Completion(id: PostId, value: int, performed: bool)

  /** `pushed` and `completions` are histories, oldest first; a poster that never showed up is Arriving. */
  datatype State = State(
    attached: bool,
    commands: seq<PostId>,
    tracer: Tracer,
    posters: map<PostId, Poster>,
    pushed: seq<PostId>,
    completions: seq<Completion>)

  const FAILED: int := -1

  /** A step of a poster, of the thread that detaches, or of the tracer. `exited` is what polling
      the target found; `value` is what performing the command returned. */
  datatype Step =
    | CheckAttached(id: PostId)
    | Push(id: PostId)
    | Wake(id: PostId)
    | Detach
    | TracerStep(exited: Exit, value: int)

  /** Still there, gone as reported by a stop of the main thread, or gone as reported by waitpid. */
  datatype Exit = Alive | ExitStop | NoChildren

  function Pc(s: State, id: PostId): Poster {
    if id in s.posters then s.posters[id] else Arriving
  }

  function At(s: State, id: PostId, pc: Poster): State {
    s.(posters := s.posters[id := pc])
  }

  // ----- posters -----

  function CheckStep(s: State, id: PostId): State {
    if !Pc(s, id).Arriving? then s
    else At(s, id, if s.attached then Admitted else Rejected)
  }

  /** Under the lock: the flag is read again, and only then the command goes in. */
  function PushStep(s: State, id: PostId): State {
    if !Pc(s, id).Admitted? then s
    else if !s.attached then At(s, id, Rejected)
    else At(s, id, Blocked).(commands := s.commands + [id], pushed := s.pushed + [id])
  }

  /** The future of `id` is ready: the poster returns its value. */
  function WakeStep(s: State, id: PostId): State {
    if Pc(s, id).Blocked? && Answered(s.completions, id) then
      var i := FirstCompletion(s.completions, id);
      At(s, id, Returned(s.completions[i].value))
    else s
  }

  predicate Answered(cs: seq<Completion>, id: PostId) {
    exists i :: 0 <= i < |cs| && cs[i].id == id
  }

  function FirstCompletion(cs: seq<Completion>, id: PostId): (i: nat)
    requires Answered(cs, id)
    ensures i < |cs| && cs[i].id == id
  {
    if cs[0].id == id then 0 else FirstCompletion(cs[1..], id) + 1
  }

  // ----- the tracer -----

  function DrainStep(s: State): State {
    if s.commands == [] then s.(tracer := Polling)
    else s.(commands := s.commands[1..], tracer := Performing(s.commands[0]))
  }

  function CompleteStep(s: State, id: PostId, value: int): State {
    s.(completions := s.completions + [Completion(id, value, true)], tracer := LoopHead)
  }

  function Failures(ids: seq<PostId>): seq<Completion> {
    seq(|ids|, i requires 0 <= i < |ids| => Completion(ids[i], FAILED, false))
  }

  function FlushStep(s: State): State {
    s.(completions := s.completions + Failures(s.commands), commands := [], tracer := Ended)
  }

  function TracerNext(s: State, exited: Exit, value: int): State {
    match s.tracer
    case LoopHead => s.(tracer := if s.attached then Draining else Cleaning)
    case Draining => DrainStep(s)
    case Performing(id) => CompleteStep(s, id, value)
    case Polling =>
      (match exited
       case Alive => s.(tracer := LoopHead)
       case ExitStop => s.(attached := false, tracer := LoopHead)
       case NoChildren => s.(attached := false, tracer := Cleaning))
    case Cleaning => s.(tracer := Flushing)
    case Flushing => FlushStep(s)
    case Ended => s
  }

  function Next(s: State, step: Step): State {
    match step
    case CheckAttached(id) => CheckStep(s, id)
    case Push(id) => PushStep(s, id)
    case Wake(id) => WakeStep(s, id)
    case Detach => s.(attached := false)
    case TracerStep(exited, value) => TracerNext(s, exited, value)
  }

  function Run(s: State, steps: seq<Step>): State
    decreases |steps|
  {
    if steps == [] then s else Run(Next(s, steps[0]), steps[1..])
  }

  /** The tracer has just seized the target. */
  const Start: State := State(true, [], LoopHead, map[], [], [])

  // ----- what every step keeps -----

  function Ids(cs: seq<Completion>): seq<PostId> {
    seq(|cs|, i requires 0 <= i < |cs| => cs[i].id)
  }

  function InHand(t: Tracer): seq<PostId> {
    if t.Performing? then [t.id] else []
  }

  ghost predicate Distinct(ids: seq<PostId>) {
    forall i, j :: 0 <= i < j < |ids| ==> ids[i] != ids[j]
  }

  /** Completed, then in hand, then queued: together exactly what was pushed, in that order. */
  ghost predicate Conserved(s: State) {
    Ids(s.completions) + InHand(s.tracer) + s.commands == s.pushed && Distinct(s.pushed)
  }

  ghost predicate HasValue(cs: seq<Completion>, id: PostId, value: int) {
    exists i :: 0 <= i < |cs| && cs[i].id == id && cs[i].value == value
  }

  /** The posters that pushed are the blocked and the answered ones, and an answer is the value of
      the command's own completion. */
  ghost predicate PostersOk(s: State) {
    && (forall id :: id in s.pushed <==> Pc(s, id).Blocked? || Pc(s, id).Returned?)
    && (forall id :: Pc(s, id).Returned? ==> HasValue(s.completions, id, Pc(s, id).value))
  }

  ghost predicate Closing(s: State) {
    && (s.tracer.Cleaning? || s.tracer.Flushing? || s.tracer.Ended? ==> !s.attached)
    && (s.tracer.Ended? ==> s.commands == [])
    && (forall i :: 0 <= i < |s.completions| && !s.completions[i].performed ==>
          s.tracer.Ended? && s.completions[i].value == FAILED)
    && (forall i, j :: 0 <= i < j < |s.completions| && s.completions[j].performed ==> s.completions[i].performed)
  }

  ghost predicate Inv(s: State) {
    Conserved(s) && PostersOk(s) && Closing(s)
  }

  lemma FlushKeepsIds(cs: seq<Completion>, ids: seq<PostId>)
    ensures Ids(cs + Failures(ids)) == Ids(cs) + ids
  {
  }

  lemma TracerKeepsConserved(s: State, exited: Exit, value: int)
    requires Inv(s)
    ensures Conserved(TracerNext(s, exited, value)) && Closing(TracerNext(s, exited, value))
  {
    if s.tracer.Flushing? {
      FlushKeepsIds(s.completions, s.commands);
    }
    if s.tracer.Performing? {
      var s' := CompleteStep(s, s.tracer.id, value);
      assert Ids(s'.completions) == Ids(s.completions) + [s.tracer.id];
    }
    if s.tracer.Draining? && s.commands != [] {
      assert [s.commands[0]] + s.commands[1..] == s.commands;
    }
  }

  lemma TracerKeepsPosters(s: State, exited: Exit, value: int)
    requires PostersOk(s)
    ensures PostersOk(TracerNext(s, exited, value))
  {
    var s' := TracerNext(s, exited, value);
    forall id | Pc(s', id).Returned? ensures HasValue(s'.completions, id, Pc(s', id).value) {
      assert HasValue(s.completions, id, Pc(s, id).value);
      var i :| 0 <= i < |s.completions| && s.completions[i].id == id && s.completions[i].value == Pc(s, id).value;
      assert s'.completions[i] == s.completions[i];
    }
  }

  lemma PosterKeepsInv(s: State, step: Step)
    requires Inv(s) && !step.TracerStep?
    ensures Inv(Next(s, step))
  {
    if step.Push? && Pc(s, step.id).Admitted? && s.attached {
      assert Ids(s.completions) + InHand(s.tracer) + (s.commands + [step.id])
          == (Ids(s.completions) + InHand(s.tracer) + s.commands) + [step.id];
    }
  }

  lemma NextKeepsInv(s: State, step: Step)
    requires Inv(s)
    ensures Inv(Next(s, step))
  {
    hide Conserved, PostersOk, Closing, TracerNext;
    if step.TracerStep? {
      TracerKeepsConserved(s, step.exited, step.value);
      TracerKeepsPosters(s, step.exited, step.value);
    } else {
      PosterKeepsInv(s, step);
    }
  }

  lemma {:induction false} RunKeepsInv(s: State, steps: seq<Step>)
    requires Inv(s)
    ensures Inv(Run(s, steps))
    decreases |steps|
  {
    hide Inv, Next;
    if steps != [] {
      NextKeepsInv(s, steps[0]);
      RunKeepsInv(Next(s, steps[0]), steps[1..]);
    }
  }

  lemma StartInv()
    ensures Inv(Start)
  {
  }

  // ----- what follows for whole runs -----

  function PerformedIds(cs: seq<Completion>): seq<PostId> {
    if cs == [] then [] else (if cs[0].performed then [cs[0].id] else []) + PerformedIds(cs[1..])
  }

  lemma {:induction false} PerformedArePrefix(cs: seq<Completion>)
    requires forall i, j :: 0 <= i < j < |cs| && cs[j].performed ==> cs[i].performed
    ensures PerformedIds(cs) <= Ids(cs)
  {
    if cs != [] {
      PerformedArePrefix(cs[1..]);
      assert Ids(cs) == [cs[0].id] + Ids(cs[1..]);
      if !cs[0].performed {
        NonePerformed(cs[1..]);
      }
    }
  }

  lemma {:induction false} NonePerformed(cs: seq<Completion>)
    requires forall i :: 0 <= i < |cs| ==> !cs[i].performed
    ensures PerformedIds(cs) == []
  {
    if cs != [] {
      NonePerformed(cs[1..]);
    }
  }

  /** At every moment of every run, each pushed command is in exactly one place (completed, in hand or
      queued), none is in two, and the performed ones are the first to have been pushed, in order. */
  lemma InOnePlaceInOrder(steps: seq<Step>)
    ensures var s := Run(Start, steps);
      && Ids(s.completions) + InHand(s.tracer) + s.commands == s.pushed
      && Distinct(s.pushed)
      && PerformedIds(s.completions) <= s.pushed
  {
    StartInv();
    RunKeepsInv(Start, steps);
    var s := Run(Start, steps);
    PerformedArePrefix(s.completions);
    assert Ids(s.completions) <= s.pushed by {
      assert s.pushed[..|s.completions|] == Ids(s.completions);
    }
  }

  /** Once the tracer has ended, every pushed command has been completed exactly once: performed, or
      failed with -1; and whoever still waits can return. */
  lemma ExactlyOnceAtEnd(steps: seq<Step>)
    requires Run(Start, steps).tracer.Ended?
    ensures var s := Run(Start, steps);
      && s.commands == [] && Ids(s.completions) == s.pushed && Distinct(s.pushed)
      && (forall i :: 0 <= i < |s.completions| && !s.completions[i].performed ==> s.completions[i].value == FAILED)
      && (forall id :: Pc(s, id).Blocked? ==> Answered(s.completions, id) && Pc(WakeStep(s, id), id).Returned?)
  {
    StartInv();
    RunKeepsInv(Start, steps);
    var s := Run(Start, steps);
    assert Ids(s.completions) + [] + [] == s.pushed;
    forall id | Pc(s, id).Blocked? ensures Answered(s.completions, id) {
      assert id in s.pushed;
      var i :| 0 <= i < |s.pushed| && s.pushed[i] == id;
      assert s.completions[i].id == id;
    }
  }

  /** A caller's answer is the completion of its own command, and a caller that was turned away was
      never queued. */
  lemma AnswersAreOwn(steps: seq<Step>, id: PostId)
    ensures var s := Run(Start, steps);
      && (Pc(s, id).Returned? ==> HasValue(s.completions, id, Pc(s, id).value))
      && (Pc(s, id).Rejected? ==> id !in s.pushed)
  {
    StartInv();
    RunKeepsInv(Start, steps);
  }

  /** After the end nothing can be pushed or completed any more. */
  lemma {:induction false} NothingAfterEnd(s: State, steps: seq<Step>)
    requires Inv(s) && s.tracer.Ended?
    ensures var s' := Run(s, steps);
      s'.tracer.Ended? && s'.pushed == s.pushed && s'.completions == s.completions && s'.commands == []
    decreases |steps|
  {
    if steps != [] {
      NextKeepsInv(s, steps[0]);
      NothingAfterEnd(Next(s, steps[0]), steps[1..]);
    }
  }

  /** How many tracer steps are left once the flag is clear. */
  function Rank(t: Tracer): nat {
    match t
    case Draining => 5
    case Performing(_) => 4
    case Polling => 4
    case LoopHead => 3
    case Cleaning => 2
    case Flushing => 1
    case Ended => 0
  }

  function TracerSteps(steps: seq<Step>): nat {
    if steps == [] then 0 else (if steps[0].TracerStep? then 1 else 0) + TracerSteps(steps[1..])
  }

  /** Clearing the flag ends the tracer within five of its own steps, whatever the others do. */
  lemma {:induction false} DetachEndsTracer(s: State, steps: seq<Step>)
    requires !s.attached && TracerSteps(steps) >= Rank(s.tracer)
    ensures Run(s, steps).tracer.Ended?
    decreases |steps|
  {
    if steps != [] {
      var s' := Next(s, steps[0]);
      assert !s'.attached;
      assert steps[0].TracerStep? ==> s.tracer.Ended? || Rank(s'.tracer) < Rank(s.tracer);
      DetachEndsTracer(s', steps[1..]);
    }
  }

  // ----- the critical sections as code -----

  /** The fields of a session that the queue lives in, and its three critical sections. */
  class Queue {
    var attached: bool
    var commands: seq<PostId>
    var completions: seq<Completion>

    constructor ()
      ensures attached && commands == [] && completions == []
    {
      attached, commands, completions := true, [], [];
    }

    /** These fields are those of `s`. */
    predicate Matches(s: State)
      reads this
    {
      attached == s.attached && commands == s.commands && completions == s.completions
    }

    /** The locked half of postCommand. */
    method TryPush(id: PostId, ghost s: State) returns (pushed: bool)
      requires Matches(s) && Pc(s, id).Admitted?
      modifies this`commands
      ensures pushed == attached
      ensures Matches(PushStep(s, id))
    {
      if !attached {
        return false;
      }
      commands := commands + [id];
      return true;
    }

    /** The locked section at the head of the tracer loop. */
    method Drain(ghost s: State) returns (have: bool, id: PostId)
      requires Matches(s) && s.tracer.Draining?
      modifies this`commands
      ensures Matches(DrainStep(s))
      ensures DrainStep(s).tracer == if have then Performing(id) else Polling
    {
      have, id := false, 0;
      if commands != [] {
        id := commands[0];
        commands := commands[1..];
        have := true;
      }
    }

    method SetValue(id: PostId, value: int, performed: bool)
      modifies this`completions
      ensures completions == old(completions) + [Completion(id, value, performed)]
    {
      completions := completions + [Completion(id, value, performed)];
    }

    /** The locked section of tracerCleanup: fail what is still queued. */
    method Flush(ghost s: State)
      requires Matches(s) && s.tracer.Flushing?
      modifies this`commands, this`completions
      ensures Matches(FlushStep(s))
    {
      var i := 0;
      while i < |commands|
        invariant commands == s.commands && i <= |commands|
        invariant completions == s.completions + Failures(s.commands[..i])
      {
        SetValue(commands[i], FAILED, false);
        assert Failures(s.commands[..i + 1]) == Failures(s.commands[..i]) + [Completion(commands[i], FAILED, false)];
        i := i + 1;
      }
      assert s.commands[..i] == s.commands;
      commands := [];
    }
  }
}
