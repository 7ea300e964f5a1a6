/** The steps of one handler, taken without interruption. */
module HandlerSteps {
  import opened Paths
  import opened Disk
  import opened Handlers
  import opened Interleaving

  function RequestOf(task: Task): Request
  {
    match task
    case Changing(p, m, base) => Change(p, m, base)
    case Erasing(p) => Erase(p)
    case MakingDir(p) => NewDir(p)
    case Carrying(from, to) => Carry(from, to)
  }

  ghost function Steps(s: State, task: Task, ph: Phase, e: Env, n: nat): (State, Phase)
    decreases n
  {
    if n == 0 then (s, ph)
    else
      var (s1, ph1) := WorkStep(s, task, ph, e);
      Steps(s1, task, ph1, e, n - 1)
  }

  lemma OneStep(s: State, task: Task, ph: Phase, e: Env, n: nat)
    requires n > 0
    ensures var (s1, ph1) := WorkStep(s, task, ph, e);
      Steps(s, task, ph, e, n) == Steps(s1, task, ph1, e, n - 1)
  { }

  lemma {:induction false} FinishedStays(s: State, task: Task, ph: Phase, e: Env, n: nat)
    requires ph.Finished?
    ensures Steps(s, task, ph, e, n) == (s, ph)
    decreases n
  {
    if n > 0 {
      OneStep(s, task, ph, e, n);
      FinishedStays(s, task, ph, e, n - 1);
    }
  }

  lemma ApplyStepsAreApply(s: State, p: Path, m: Mutation, base: nat, head: FileHead, e: Env)
    requires WellFormed(s.disk) && p != "" && !Malformed(m)
    ensures var (s', ph) := Steps(s, Changing(p, m, base), Resolved(head), e, 3);
      ph.Finished? && (s', ph.reply) == Apply(s, p, m, head, e)
  {
    var task := Changing(p, m, base);
    var (s2, ph2) := WriteDisk(s, p, m, head, e);
    OneStep(s, task, Resolved(head), e, 3);
    if ph2.Finished? {
      FinishedStays(s2, task, ph2, e, 2);
    } else {
      MutatedFile(s.disk, p, m, e.wroteAt);
      var (s3, ph3) := WorkStep(s2, task, ph2, e);
      OneStep(s2, task, ph2, e, 2);
      if ph3.Finished? {
        FinishedStays(s3, task, ph3, e, 1);
      } else {
        OneStep(s3, task, ph3, e, 1);
      }
    }
  }

  lemma ChangeStepsAreTheHandler(s: State, p: Path, m: Mutation, base: nat, e: Env)
    requires WellFormed(s.disk) && p != ""
    ensures var (s', ph) := Steps(s, Changing(p, m, base), Holding, e, 4);
      ph.Finished? && (s', ph.reply) == Mutate(s, p, m, base, e)
  {
    var task := Changing(p, m, base);
    var (s1, ph1) := Decide(s, p, m, base, e);
    OneStep(s, task, Holding, e, 4);
    if ph1.Finished? {
      FinishedStays(s1, task, ph1, e, 3);
    } else {
      assert s1 == s && Mutate(s, p, m, base, e) == Apply(s, p, m, ph1.head, e);
      ApplyStepsAreApply(s, p, m, base, ph1.head, e);
    }
  }

  lemma CarryStepsAreTheHandler(s: State, from: Path, to: Path, e: Env)
    ensures var (s', ph) := Steps(s, Carrying(from, to), Holding, e, 4);
      ph.Finished? && (s', ph.reply) == Move(s, from, to, e)
  {
    var task := Carrying(from, to);
    var (s1, ph1) := CarryStep(s, from, to, Holding, e);
    OneStep(s, task, Holding, e, 4);
    if ph1.Finished? {
      FinishedStays(s1, task, ph1, e, 3);
    } else {
      var (s2, ph2) := CarryStep(s1, from, to, ph1, e);
      OneStep(s1, task, ph1, e, 3);
      if ph2.Finished? {
        FinishedStays(s2, task, ph2, e, 2);
      } else {
        var (s3, ph3) := CarryStep(s2, from, to, ph2, e);
        OneStep(s2, task, ph2, e, 2);
        FinishedStays(s3, task, ph3, e, 1);
      }
    }
  }

  /** Undisturbed, the steps of a handler add up to the handler function. */
  lemma StepsAreTheHandler(s: State, task: Task, e: Env)
    requires WellFormed(s.disk) && NamedTask(task)
    ensures var (s', ph) := Steps(s, task, Holding, e, 4);
      ph.Finished? && (s', ph.reply) == Handle(s, RequestOf(task), e)
  {
    if task.Changing? {
      assert Touches(task, task.path);
      ChangeStepsAreTheHandler(s, task.path, task.mutation, task.base, e);
    } else if task.Carrying? {
      CarryStepsAreTheHandler(s, task.from, task.to, e);
    } else {
      var (s1, ph1) := WorkStep(s, task, Holding, e);
      var (s2, ph2) := WorkStep(s1, task, ph1, e);
      OneStep(s, task, Holding, e, 4);
      OneStep(s1, task, ph1, e, 3);
      FinishedStays(s2, task, ph2, e, 2);
    }
  }
}
