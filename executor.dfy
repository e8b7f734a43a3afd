/**
 * The menu runner: numbers the registered tasks, reads the user's choice
 * until it is a valid task number or the exit number, and runs the chosen
 * task's `get_params` then `execute`, until the user picks Exit. A token is
 * generated first when the settings hold none.
 *
 * The task registry (built by reflection in the source) is given as a
 * sequence in dictionary order; the lines typed by the user are a sequence
 * of strings, shared by the menu, `generate_token` and the tasks' own
 * prompts; the effect of running a task is recorded as events. What a task
 * does with standard input is given as a `Behaviour`: how many lines it
 * reads and whether creating it, its `get_params` or its `execute` raises
 * or calls `exit`. Nothing in `run_task` or `main` catches, so a task that
 * fails at any of these steps ends the program.
 */
module Executor {
  import opened Common
  import opened Text
  import opened Strings

  /** A registered task class: its class name and its `description`. */
  datatype TaskEntry = TaskEntry(name: string, description: string)

  /** What the runner does, in order. */
  datatype Event =
    | MenuShown
    | Instantiated(task: string)
    | ParamsRead(task: string)
    | Executed(task: string)
    | TokenGenerated
    | SettingsSaved

  /** `"-" * n`. */
  function Dashes(n: nat): string
  {
    seq(n, _ => '-')
  }

  /** The menu line of the task at 0-based position `i`. */
  function MenuItem(i: nat, t: TaskEntry): string
  {
    NatToString(i + 1) + ". " + CamelCaseToSentence(t.name) + " - " + t.description
  }

  function MenuItems(tasks: seq<TaskEntry>): (items: seq<string>)
    ensures |items| == |tasks|
    ensures forall i :: 0 <= i < |tasks| ==> items[i] == MenuItem(i, tasks[i])
  {
    seq(|tasks|, i requires 0 <= i < |tasks| => MenuItem(i, tasks[i]))
  }

  /** `display_menu`: the lines printed, each without its final newline. */
  function MenuLines(tasks: seq<TaskEntry>): seq<string>
  {
    ["\n" + Dashes(40), "       TASK SELECTION MENU", Dashes(40)]
    + MenuItems(tasks)
    + [NatToString(|tasks| + 1) + ". Exit", Dashes(40) + "\n"]
  }

  /** The menu shows the tasks' lines, in registry order, between the heading and the Exit line. */
  lemma MenuLayout(tasks: seq<TaskEntry>)
    ensures var lines := MenuLines(tasks);
            |lines| == |tasks| + 5 &&
            lines[3..|tasks| + 3] == MenuItems(tasks) &&
            lines[|tasks| + 3] == NatToString(|tasks| + 1) + ". Exit"
  {
  }

  /** The line of the task at position `i` starts with the number `i + 1`. */
  lemma MenuItemNumber(i: nat, t: TaskEntry)
    ensures var line := MenuItem(i, t);
            line[..|NatToString(i + 1)| + 2] == NatToString(i + 1) + ". "
  {
  }

  /**
   * `int(input(...))` for each line typed, in order: `None` where `int`
   * raises ValueError.
   */
  function Typed(lines: seq<string>): (typed: seq<Option<int>>)
    ensures |typed| == |lines|
  {
    seq(|lines|, j requires 0 <= j < |lines| => ParseInt(lines[j]))
  }

  /** Reading a line off the input leaves the numbers of the lines after it. */
  lemma TypedTail(line: string, rest: seq<string>)
    ensures Typed([line] + rest)[0] == ParseInt(line)
    ensures Typed([line] + rest)[1..] == Typed(rest)
  {
    var t := Typed([line] + rest);
    forall j | 0 <= j < |rest| ensures t[1..][j] == Typed(rest)[j] {
      assert ([line] + rest)[j + 1] == rest[j];
    }
  }

  /**
   * One typed number as `get_user_choice` judges it: the 0-based choice
   * when `number - 1` lies in `[0, n]`; `None` when `int` raised ValueError
   * or the number is out of range, both of which re-prompt.
   */
  function Choice(n: nat, typed: Option<int>): (c: Option<nat>)
    ensures c.Some? <==> typed.Some? && 1 <= typed.value <= n + 1
    ensures c.Some? ==> c.value == typed.value - 1 && c.value <= n
  {
    match typed
    case None => None
    case Some(k) => if k - 1 < 0 || k - 1 > n then None else Some(k - 1)
  }

  /** Typing the number the menu shows for position `i` selects position `i`. */
  lemma MenuNumberSelects(n: nat, i: nat)
    requires i <= n
    requires |NatToString(i + 1)| <= MaxStrDigits
    ensures Choice(n, ParseInt(NatToString(i + 1))) == Some(i)
  {
    ParseNatToString(i + 1);
  }

  /** The first accepted line: its choice and the number of lines read up to it. */
  function FirstChoice(n: nat, inputs: seq<Option<int>>): (c: Option<(nat, nat)>)
    ensures c.Some? ==> 0 < c.value.1 <= |inputs| && Choice(n, inputs[c.value.1 - 1]) == Some(c.value.0)
    ensures c.Some? ==> forall j :: 0 <= j < c.value.1 - 1 ==> Choice(n, inputs[j]).None?
    ensures c.None? <==> forall j :: 0 <= j < |inputs| ==> Choice(n, inputs[j]).None?
  {
    if inputs == [] then None
    else match Choice(n, inputs[0])
      case Some(k) => Some((k, 1))
      case None =>
        match FirstChoice(n, inputs[1..])
        case None => None
        case Some(p) => Some((p.0, p.1 + 1))
  }

  /** Any accepted line preceded only by rejected ones is the first accepted line. */
  lemma {:induction false} FirstChoiceAt(n: nat, inputs: seq<Option<int>>, used: nat, k: nat)
    requires 0 < used <= |inputs|
    requires Choice(n, inputs[used - 1]) == Some(k)
    requires forall j :: 0 <= j < used - 1 ==> Choice(n, inputs[j]).None?
    ensures FirstChoice(n, inputs) == Some((k, used))
    decreases used
  {
    if used > 1 {
      FirstChoiceAt(n, inputs[1..], used - 1, k);
    }
  }

  /**
   * `get_user_choice`: reads typed numbers until one is accepted, so it
   * returns the first accepted choice; `used` is the number of lines read.
   * Running out of lines is the EOFError `input()` raises, which the
   * source does not catch.
   */
  method GetUserChoice(n: nat, inputs: seq<Option<int>>) returns (r: Result<nat>, used: nat)
    ensures r.Ok? <==> FirstChoice(n, inputs).Some?
    ensures r.Ok? ==> FirstChoice(n, inputs) == Some((r.value, used))
    ensures r.Err? ==> r.error == EOFError && used == |inputs|
  {
    var i := 0;
    while i < |inputs|
      invariant i <= |inputs|
      invariant forall j :: 0 <= j < i ==> Choice(n, inputs[j]).None?
    {
      var c := Choice(n, inputs[i]);
      if c.Some? {
        FirstChoiceAt(n, inputs, i + 1, c.value);
        return Ok(c.value), i + 1;
      }
      i := i + 1;
    }
    return Err(EOFError), |inputs|;
  }

  /** How a call that does not return ends the program: an uncaught exception, or `exit(code)`. */
  datatype Failure = Raised(error: PyError) | Exited(code: int)

  /** The step of `run_task` that did not return: creating the task, `get_params` or `execute`. */
  datatype Stage = Creation | GettingParams | Executing

  /**
   * What one run of a task does to the program: the number of input lines
   * its `get_params` and `execute` read between them, and whether all three
   * steps returned or which of them failed. Creating a task reads no input.
   */
  datatype TaskRun =
    | Completed(consumed: nat)
    | Failed(stage: Stage, consumed: nat, failure: Failure)

  /**
   * The run of the task at a position, given the input lines that remain
   * when it is created. A run never reads more lines than remain: a count
   * past the end is read as all of them.
   */
  type Behaviour = (nat, seq<string>) -> TaskRun

  /** `generate_token`: the token it returns, or how it ends the program; and the lines it reads. */
  datatype TokenRun =
    | Generated(token: string, read: nat)
    | GenerationFailed(read: nat, failure: Failure)

  /** How the program ends. */
  datatype Ending =
    | ChoseExit                                   // the `break` on the Exit number
    | InputEnded                                  // EOFError from `get_user_choice`
    | TaskStopped(task: string, stage: Stage, failure: Failure) // a step of a task raised or called `exit`
    | TokenFailed(failure: Failure)               // `generate_token` raised or called `exit(1)`

  /** The input left after `c` more lines are read. */
  function Skip(lines: seq<string>, c: nat): (rest: seq<string>)
    ensures |rest| <= |lines| && rest == lines[|lines| - |rest|..]
    ensures c <= |lines| ==> |rest| == |lines| - c
  {
    if c <= |lines| then lines[c..] else []
  }

  /** `run_task`: the class at position `choice` in registry order is created, then `get_params`, then `execute`. */
  function RunTask(tasks: seq<TaskEntry>, choice: nat): (events: seq<Event>)
    requires choice < |tasks|
    ensures |events| == 3
    ensures events[0] == Instantiated(tasks[choice].name)
    ensures events[1] == ParamsRead(tasks[choice].name)
    ensures events[2] == Executed(tasks[choice].name)
  {
    var name := tasks[choice].name;
    [Instantiated(name), ParamsRead(name), Executed(name)]
  }

  /** How many of the three events of `run_task` happen when `stage` fails: none when creating the task fails. */
  function Reached(stage: Stage): (n: nat)
    ensures n <= 3
  {
    match stage
    case Creation => 0
    case GettingParams => 2
    case Executing => 3
  }

  /** The events of `run_task` for task `name` when `stage` is the step that fails. */
  function RunUntil(name: string, stage: Stage): seq<Event>
  {
    match stage
    case Creation => []
    case GettingParams => [Instantiated(name), ParamsRead(name)]
    case Executing => [Instantiated(name), ParamsRead(name), Executed(name)]
  }

  /** A task that fails at `stage` leaves the events of `run_task` before and including that step, and no more. */
  lemma RunUntilIsPrefix(tasks: seq<TaskEntry>, choice: nat, stage: Stage)
    requires choice < |tasks|
    ensures RunUntil(tasks[choice].name, stage) == RunTask(tasks, choice)[..Reached(stage)]
    ensures stage == Executing ==> RunUntil(tasks[choice].name, stage) == RunTask(tasks, choice)
  {
  }

  /**
   * The menu loop of `main` as a reference definition: show the menu, read
   * a choice, stop on Exit, otherwise run the task. A task that returns
   * leaves the input after the lines it read for the next choice; a task
   * that fails ends the program with the events up to the failing step.
   */
  function Session(tasks: seq<TaskEntry>, run: Behaviour, lines: seq<string>): (s: (seq<Event>, Ending))
    decreases |lines|
  {
    var n := |tasks|;
    match FirstChoice(n, Typed(lines))
    case None => ([MenuShown], InputEnded)
    case Some(p) =>
      if p.0 == n then ([MenuShown], ChoseExit)
      else
        var after := lines[p.1..];
        var name := tasks[p.0].name;
        var r := run(p.0, after);
        if r.Failed? then ([MenuShown] + RunUntil(name, r.stage), TaskStopped(name, r.stage, r.failure))
        else
          var rest := Session(tasks, run, Skip(after, r.consumed));
          ([MenuShown] + RunTask(tasks, p.0) + rest.0, rest.1)
  }

  /** Typing the Exit number ends the session at once, without running any task. */
  lemma ExitEndsSession(tasks: seq<TaskEntry>, run: Behaviour, rest: seq<string>)
    requires |NatToString(|tasks| + 1)| <= MaxStrDigits
    ensures Session(tasks, run, [NatToString(|tasks| + 1)] + rest) == ([MenuShown], ChoseExit)
  {
    MenuNumberSelects(|tasks|, |tasks|);
    TypedTail(NatToString(|tasks| + 1), rest);
  }

  /**
   * After a choice of task `k`, the session runs that task on the lines
   * after the choice. When it returns, the next choice is read after the
   * lines the task read; when it fails, the program ends there.
   */
  lemma SessionAfterChoice(tasks: seq<TaskEntry>, run: Behaviour, lines: seq<string>, k: nat, used: nat)
    requires FirstChoice(|tasks|, Typed(lines)) == Some((k, used)) && k < |tasks|
    ensures var s := Session(tasks, run, lines);
            match run(k, lines[used..])
            case Completed(c) =>
              var next := Session(tasks, run, Skip(lines[used..], c));
              s.0 == [MenuShown] + RunTask(tasks, k) + next.0 && s.1 == next.1
            case Failed(stage, _, f) =>
              s == ([MenuShown] + RunUntil(tasks[k].name, stage), TaskStopped(tasks[k].name, stage, f))
  {
  }

  /** Typing the number of task `i` chooses task `i`, reading that one line. */
  lemma TaskNumberChooses(tasks: seq<TaskEntry>, i: nat, rest: seq<string>)
    requires i < |tasks|
    requires |NatToString(i + 1)| <= MaxStrDigits
    ensures FirstChoice(|tasks|, Typed([NatToString(i + 1)] + rest)) == Some((i, 1))
  {
    TypedTail(NatToString(i + 1), rest);
    MenuNumberSelects(|tasks|, i);
    FirstChoiceAt(|tasks|, Typed([NatToString(i + 1)] + rest), 1, i);
  }

  /**
   * Typing the number of task `i` runs that task on the lines after the
   * choice. When it returns, the next choice is read after the lines the
   * task read; when it fails, the program ends there.
   */
  lemma TaskNumberRunsTask(tasks: seq<TaskEntry>, run: Behaviour, i: nat, rest: seq<string>)
    requires i < |tasks|
    requires |NatToString(i + 1)| <= MaxStrDigits
    ensures var s := Session(tasks, run, [NatToString(i + 1)] + rest);
            var name := tasks[i].name;
            match run(i, rest)
            case Completed(c) =>
              var next := Session(tasks, run, Skip(rest, c));
              s.0 == [MenuShown] + RunTask(tasks, i) + next.0 && s.1 == next.1
            case Failed(stage, _, f) =>
              s == ([MenuShown] + RunUntil(tasks[i].name, stage), TaskStopped(name, stage, f))
  {
    var lines := [NatToString(i + 1)] + rest;
    TaskNumberChooses(tasks, i, rest);
    assert lines[1..] == rest;
    SessionAfterChoice(tasks, run, lines, i, 1);
  }

  /** Each `execute` in `t` is directly preceded by that task's `get_params`, and that by its creation. */
  ghost predicate RunsInOrder(t: seq<Event>)
  {
    forall k :: 0 <= k < |t| && t[k].Executed? ==>
      k >= 2 && t[k - 1] == ParamsRead(t[k].task) && t[k - 2] == Instantiated(t[k].task)
  }

  lemma RunsInOrderAppend(a: seq<Event>, b: seq<Event>)
    requires RunsInOrder(a) && RunsInOrder(b)
    ensures RunsInOrder(a + b)
  {
    forall k | 0 <= k < |a + b| && (a + b)[k].Executed?
      ensures k >= 2 && (a + b)[k - 1] == ParamsRead((a + b)[k].task) && (a + b)[k - 2] == Instantiated((a + b)[k].task)
    {
      if k >= |a| {
        assert (a + b)[k] == b[k - |a|];
      }
    }
  }

  /**
   * The events of one menu round keep that order, whether the task returns
   * or fails at any step, and so does the rest of the session after it.
   */
  lemma RoundRunsInOrder(tasks: seq<TaskEntry>, choice: nat, stage: Stage, later: seq<Event>)
    requires choice < |tasks|
    requires RunsInOrder(later)
    ensures RunsInOrder([MenuShown] + RunUntil(tasks[choice].name, stage) + later)
  {
    var step := [MenuShown] + RunUntil(tasks[choice].name, stage);
    forall k | 0 <= k < |step| && step[k].Executed?
      ensures k >= 2 && step[k - 1] == ParamsRead(step[k].task) && step[k - 2] == Instantiated(step[k].task)
    {
      assert k == 3;
    }
    RunsInOrderAppend(step, later);
  }

  /**
   * In every session each `execute` is directly preceded by that task's
   * `get_params`, which is directly preceded by its creation.
   */
  lemma {:induction false} SessionRunsInOrder(tasks: seq<TaskEntry>, run: Behaviour, lines: seq<string>)
    ensures RunsInOrder(Session(tasks, run, lines).0)
    decreases |lines|
  {
    var s := Session(tasks, run, lines);
    var p := FirstChoice(|tasks|, Typed(lines));
    if p.None? || p.value.0 == |tasks| {
      assert s.0 == [MenuShown];
    } else {
      var (choice, used) := p.value;
      SessionAfterChoice(tasks, run, lines, choice, used);
      match run(choice, lines[used..])
      case Failed(stage, _, _) =>
        assert s.0 == [MenuShown] + RunUntil(tasks[choice].name, stage) + [];
        RoundRunsInOrder(tasks, choice, stage, []);
      case Completed(c) =>
        var next := Session(tasks, run, Skip(lines[used..], c));
        SessionRunsInOrder(tasks, run, Skip(lines[used..], c));
        RunUntilIsPrefix(tasks, choice, Executing);
        assert s.0 == [MenuShown] + RunUntil(tasks[choice].name, Executing) + next.0;
        RoundRunsInOrder(tasks, choice, Executing, next.0);
    }
  }

  /** The event a failing step of task `name` leaves last: the menu when the task could not be created. */
  function StoppedAt(name: string, stage: Stage): Event
  {
    match stage
    case Creation => MenuShown
    case GettingParams => ParamsRead(name)
    case Executing => Executed(name)
  }

  /**
   * The last thing a session does: the menu is shown last when no task
   * failed; when a task failed, the program ends in the step that failed,
   * right after the menu when the task could not even be created.
   */
  lemma {:induction false} SessionLastEvent(tasks: seq<TaskEntry>, run: Behaviour, lines: seq<string>)
    ensures var s := Session(tasks, run, lines);
            |s.0| > 0
            && (!s.1.TaskStopped? ==> Last(s.0) == MenuShown)
            && (s.1.TaskStopped? ==> Last(s.0) == StoppedAt(s.1.task, s.1.stage))
    decreases |lines|
  {
    var p := FirstChoice(|tasks|, Typed(lines));
    if p.Some? && p.value.0 != |tasks| {
      var (k, used) := p.value;
      var after := lines[used..];
      match run(k, after)
      case Failed(stage, _, f) =>
        var s := Session(tasks, run, lines);
        assert s.0 == [MenuShown] + RunUntil(tasks[k].name, stage);
        FailedStepLast(tasks, k, stage);
      case Completed(c) =>
        var next := Skip(after, c);
        var rest := Session(tasks, run, next);
        SessionLastEvent(tasks, run, next);
        var step := [MenuShown] + RunTask(tasks, k);
        assert Session(tasks, run, lines) == (step + rest.0, rest.1);
        assert Last(step + rest.0) == Last(rest.0);
    }
  }

  /** The events of a round whose task fails at `stage` end with the event `StoppedAt` names. */
  lemma FailedStepLast(tasks: seq<TaskEntry>, k: nat, stage: Stage)
    requires k < |tasks|
    ensures Last([MenuShown] + RunUntil(tasks[k].name, stage)) == StoppedAt(tasks[k].name, stage)
  {
  }

  /** The last element of a non-empty sequence. */
  function Last(t: seq<Event>): Event
    requires |t| > 0
  {
    t[|t| - 1]
  }

  /** The token guard of `main`: `settings.get('token')` read as an optional string. */
  function Token(settings: map<string, string>): Option<string>
  {
    if "token" in settings then Some(settings["token"]) else None
  }

  /**
   * One pass through the body of `main`'s loop: show the menu, read a
   * choice, and run the chosen task. `ending` is how the program ends in
   * this pass, if it does; otherwise `rest` is the input left for the next
   * pass.
   */
  method MenuRound(tasks: seq<TaskEntry>, run: Behaviour, pending: seq<string>)
    returns (step: seq<Event>, rest: seq<string>, ending: Option<Ending>)
    ensures ending.Some? ==> Session(tasks, run, pending) == (step, ending.value)
    ensures ending.None? ==> |rest| < |pending|
    ensures ending.None? ==> Resumes(step, Session(tasks, run, rest), Session(tasks, run, pending))
  {
    var n := |tasks|;
    var choice, used := GetUserChoice(n, Typed(pending));
    rest := pending;
    if choice.Err? {
      return [MenuShown], rest, Some(InputEnded);
    }
    if choice.value == n {
      return [MenuShown], rest, Some(ChoseExit);
    }
    var after := pending[used..];
    var r := run(choice.value, after);
    SessionAfterChoice(tasks, run, pending, choice.value, used);
    if r.Failed? {
      step := [MenuShown] + RunUntil(tasks[choice.value].name, r.stage);
      return step, rest, Some(TaskStopped(tasks[choice.value].name, r.stage, r.failure));
    }
    step := [MenuShown] + RunTask(tasks, choice.value);
    rest := Skip(after, r.consumed);
    assert |after| < |pending|;
    ending := None;
  }

  /**
   * The `while True` loop of `main`. `pending` is what is left of standard
   * input: each `get_user_choice` and each task run consumes the lines it
   * reads.
   */
  method MenuLoop(tasks: seq<TaskEntry>, run: Behaviour, lines: seq<string>) returns (trace: seq<Event>, ending: Ending)
    ensures (trace, ending) == Session(tasks, run, lines)
  {
    trace := [];
    var pending := lines;
    while true
      invariant Resumes(trace, Session(tasks, run, pending), Session(tasks, run, lines))
      decreases |pending|
    {
      var step, rest, stop := MenuRound(tasks, run, pending);
      if stop.Some? {
        trace, ending := trace + step, stop.value;
        return;
      }
      ResumesStep(trace, step, Session(tasks, run, rest), Session(tasks, run, lines));
      trace := trace + step;
      pending := rest;
    }
  }

  /** `done` followed by the rest of a session is the whole session. */
  ghost predicate Resumes(done: seq<Event>, rest: (seq<Event>, Ending), whole: (seq<Event>, Ending))
  {
    done + rest.0 == whole.0 && rest.1 == whole.1
  }

  lemma ResumesStep(done: seq<Event>, step: seq<Event>, later: (seq<Event>, Ending), whole: (seq<Event>, Ending))
    requires Resumes(done, (step + later.0, later.1), whole)
    ensures Resumes(done + step, later, whole)
  {
    assert done + (step + later.0) == (done + step) + later.0;
  }

  /**
   * `main` from its token check on: when the settings lack a truthy token,
   * `generate_token` runs first on the same input; the token it returns is
   * stored and saved and the menu reads the lines after the ones it read,
   * while a failure of `generate_token` ends the program before any menu.
   */
  method RunProgram(settings: map<string, string>, generation: TokenRun, tasks: seq<TaskEntry>, run: Behaviour,
                    lines: seq<string>)
    returns (saved: map<string, string>, trace: seq<Event>, ending: Ending)
    ensures Truthy(Token(settings)) ==> saved == settings && (trace, ending) == Session(tasks, run, lines)
    ensures !Truthy(Token(settings)) && generation.Generated? ==>
              var menu := Session(tasks, run, Skip(lines, generation.read));
              saved == settings["token" := generation.token]
              && trace == [TokenGenerated, SettingsSaved] + menu.0 && ending == menu.1
    ensures !Truthy(Token(settings)) && generation.GenerationFailed? ==>
              saved == settings && trace == [] && ending == TokenFailed(generation.failure)
  {
    saved := settings;
    var start: seq<Event> := [];
    var pending := lines;
    if !Truthy(Token(settings)) {
      if generation.GenerationFailed? {
        return settings, [], TokenFailed(generation.failure);
      }
      saved := saved["token" := generation.token];
      start := [TokenGenerated, SettingsSaved];
      pending := Skip(lines, generation.read);
    }
    var session;
    session, ending := MenuLoop(tasks, run, pending);
    trace := start + session;
    assert start == [] ==> trace == session;
  }
}
