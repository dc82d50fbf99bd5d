/**
 * The porter's job launch (c_src/porter/porter.cpp): read the job, fork, and
 * in the child resolve the user, save the script, drop privileges, set up the
 * environment, working directory and standard streams, and exec the script.
 *
 * The child's system calls are not performed: each step is an `Action`, and a
 * caller-supplied oracle `sys` gives the status each call returns. The oracle
 * for user lookups is `answers`, indexed by attempt.
 */
module Porter {
  import opened Wrappers
  import opened Supervisor

  /** `max_attempts` of the user lookup loop. */
  const MAX_ATTEMPTS: nat := 20
  /** `S_IRWXU`: read, write and execute for the owner only. */
  const S_IRWXU: int := 0x1C0
  /** The interpreter the script is run with. */
  const SHELL: string := "/bin/sh"

  datatype Job = Job(id: string, scriptContent: string, workdir: string, stdoutPath: string, stderrPath: string)
  datatype ProcInfo = ProcInfo(userName: string, job: Job)

  /** The `passwd` entry of the job's user. */
  datatype Passwd = Passwd(name: string, uid: nat, gid: nat, dir: string)

  datatype Stream = Stdout | Stderr

  /** A system call the child makes, with the arguments it passes. */
  datatype Action =
    | GetPwNam(user: string)
    | Sleep(seconds: nat)
    // Its status says whether the script file could be opened; the write
    // and the close that follow are not checked.
    | WriteScript(path: string, content: string)
    | Chmod(path: string, mode: int)
    | Chown(path: string, uid: nat, gid: nat)
    | SetRegid(gid: nat)
    | SetReuid(uid: nat)
    | SetEnv(name: string, value: string)
    | Chdir(dir: string)
    | OpenFile(stream: Stream, path: string)
    | Duplicate(stream: Stream, path: string)
    | Exec(program: string, argv: seq<string>)

  /**
   * How the child reacts to an action's status: `Some(code)` when it exits with
   * `code`, `None` when it goes on. `WriteScript` (the file opened), `OpenFile`
   * and `Exec` take 0 for success. A failed `execve` falls through to the end of `main`, which
   * returns EXIT_SUCCESS.
   */
  function Verdict(a: Action, status: int): (r: Option<ExitCode>)
    ensures status == 0 ==> r.None?
    ensures a.SetEnv? || a.Chdir? || a.GetPwNam? || a.Sleep? ==> r.None?
  {
    match a
    case WriteScript(_, _) => if status != 0 then Some(ExitFailure) else None
    case Chmod(_, _) => if status != 0 then Some(ExitFailure) else None
    case Chown(_, _, _) => if status == -1 then Some(ExitFailure) else None
    case SetRegid(_) => if status < 0 then Some(ExitStatus(status)) else None
    case SetReuid(_) => if status < 0 then Some(ExitStatus(status)) else None
    case OpenFile(_, _) => if status != 0 then Some(ExitFileError) else None
    case Duplicate(_, _) => if status < 0 then Some(ExitSystemError) else None
    case Exec(_, _) => if status != 0 then Some(ExitSuccess) else None
    case _ => None
  }

  /** The actions made, and the exit code if one of them ended the process. */
  datatype Run = Run(trace: seq<Action>, exit: Option<ExitCode>)

  /** Does the actions of `plan` in order, stopping at the first whose status ends the process. */
  function Perform(plan: seq<Action>, sys: Action -> int): (r: Run)
    ensures |r.trace| <= |plan| && r.trace == plan[..|r.trace|]
    ensures forall i | 0 <= i < |r.trace| - 1 :: Verdict(r.trace[i], sys(r.trace[i])).None?
    ensures r.exit.None? <==> r.trace == plan && forall i | 0 <= i < |plan| :: Verdict(plan[i], sys(plan[i])).None?
    ensures r.exit.Some? ==> r.trace != [] && r.exit == Verdict(r.trace[|r.trace| - 1], sys(r.trace[|r.trace| - 1]))
    decreases |plan|
  {
    if plan == [] then Run([], None)
    else
      match Verdict(plan[0], sys(plan[0]))
      case Some(code) => Run([plan[0]], Some(code))
      case None =>
        var rest := Perform(plan[1..], sys);
        assert forall i | 0 <= i < |plan| - 1 :: plan[1..][i] == plan[i + 1];
        Run([plan[0]] + rest.trace, rest.exit)
  }

  /** Running a plan made of two parts runs the first part, then the second if the first ended nobody. */
  lemma {:induction false} PerformAppend(p: seq<Action>, q: seq<Action>, sys: Action -> int)
    ensures var a := Perform(p, sys);
            Perform(p + q, sys) ==
              if a.exit.Some? then a
              else var b := Perform(q, sys); Run(p + b.trace, b.exit)
    decreases |p|
  {
    if p != [] {
      assert (p + q)[1..] == p[1..] + q;
      PerformAppend(p[1..], q, sys);
    } else {
      assert p + q == q;
    }
  }

  // The `%j` placeholder of the output paths.

  predicate TokenAt(s: string, i: nat) {
    i + 1 < |s| && s[i] == '%' && s[i + 1] == 'j'
  }

  predicate HasToken(s: string) {
    exists i: nat | i < |s| :: TokenAt(s, i)
  }

  /** The first position of the placeholder at or after `from`. */
  function FindFrom(s: string, from: nat): (r: Option<nat>)
    requires from <= |s|
    ensures r.Some? ==> from <= r.value && TokenAt(s, r.value) && forall i: nat | from <= i < r.value :: !TokenAt(s, i)
    ensures r.None? ==> forall i: nat | from <= i < |s| :: !TokenAt(s, i)
    decreases |s| - from
  {
    if from + 1 >= |s| then None
    else if TokenAt(s, from) then Some(from)
    else FindFrom(s, from + 1)
  }

  /** `std::string::find("%j")`: the first position of the placeholder. */
  function FindToken(s: string): (r: Option<nat>)
    ensures r.Some? ==> TokenAt(s, r.value) && forall i: nat | i < r.value :: !TokenAt(s, i)
    ensures r.None? <==> !HasToken(s)
  {
    FindFrom(s, 0)
  }

  /** Replaces the first `%j` of `template` with the job id, if there is one. */
  function Substitute(template: string, id: string): string {
    match FindToken(template)
    case None => template
    case Some(p) => template[..p] + id + template[p + 2..]
  }

  /** The first placeholder is replaced, and only that one: later placeholders stay as written. */
  lemma SubstituteFirst(a: string, b: string, id: string)
    requires !HasToken(a + "%")
    ensures Substitute(a + "%j" + b, id) == a + id + b
  {
    var s := a + "%j" + b;
    assert TokenAt(s, |a|);
    forall i: nat | i < |a|
      ensures !TokenAt(s, i)
    {
      assert !TokenAt(a + "%", i);
      assert s[i] == (a + "%")[i] && s[i + 1] == (a + "%")[i + 1];
    }
    assert FindToken(s) == Some(|a|);
    assert s[..|a|] == a && s[|a| + 2..] == b;
  }

  /** A path without a placeholder is used as written. */
  lemma SubstituteAbsent(template: string, id: string)
    requires !HasToken(template)
    ensures Substitute(template, id) == template
  {
  }

  /** A job with id 42 writing to `/logs/%j.out` writes to `/logs/42.out`. */
  lemma SubstituteExample()
    ensures Substitute("/logs/%j.out", "42") == "/logs/42.out"
  {
    var a := "/logs/";
    assert !HasToken(a + "%") by {
      assert a + "%" == "/logs/%";
      assert forall i: nat | i < 7 :: !TokenAt("/logs/%", i);
    }
    SubstituteFirst(a, ".out", "42");
    assert a + "%j" + ".out" == "/logs/%j.out";
    assert a + "42" + ".out" == "/logs/42.out";
  }

  // The steps of the child, each as the actions it makes.

  /** Where `save_script` writes the job script. */
  function ScriptPath(id: string): string {
    "/tmp/swm-" + id + ".sh"
  }

  /** Distinct jobs never share a script file. */
  lemma ScriptPathInjective(a: string, b: string)
    ensures ScriptPath(a) == ScriptPath(b) <==> a == b
  {
    if ScriptPath(a) == ScriptPath(b) {
      var n := |"/tmp/swm-"|;
      assert |a| == |b|;
      assert a == ScriptPath(a)[n..n + |a|];
    }
  }

  /** `save_script`: write the script, make it private to its owner, give it to the job's user. */
  function SaveScript(job: Job, pw: Passwd): seq<Action> {
    var path := ScriptPath(job.id);
    [WriteScript(path, job.scriptContent), Chmod(path, S_IRWXU), Chown(path, pw.uid, pw.gid)]
  }

  /** `set_uid_gid`: the group first, while the porter may still change it. */
  function SetUidGid(pw: Passwd): seq<Action> {
    [SetRegid(pw.gid), SetReuid(pw.uid)]
  }

  /** The `PATH` (and `PWD`) value `set_env` builds from the job's working directory. */
  function JobPath(workdir: string, path: string): string {
    workdir + ":" + path
  }

  /**
   * `set_env`, given the environment the porter inherited. `getenv("PATH")`
   * is only read when the job names a working directory, and then it must be set.
   */
  function SetEnvironment(pw: Passwd, job: Job, env: map<string, string>): seq<Action>
    requires job.workdir != "" ==> "PATH" in env
  {
    [SetEnv("HOME", pw.dir), SetEnv("USER", pw.name), SetEnv("SWM_JOB_ID", job.id)] +
    if job.workdir == "" then []
    else
      var path := JobPath(job.workdir, env["PATH"]);
      [SetEnv("PATH", path), SetEnv("PWD", path)]
  }

  /** The environment after a sequence of `setenv(name, value, 1)` calls. */
  function Apply(env: map<string, string>, plan: seq<Action>): map<string, string>
    decreases |plan|
  {
    if plan == [] then env
    else
      var env' := if plan[0].SetEnv? then env[plan[0].name := plan[0].value] else env;
      Apply(env', plan[1..])
  }

  /** A variable no action sets keeps its presence and value. */
  lemma {:induction false} ApplyUntouched(env: map<string, string>, plan: seq<Action>, key: string)
    requires forall i | 0 <= i < |plan| :: plan[i].SetEnv? ==> plan[i].name != key
    ensures key in Apply(env, plan) <==> key in env
    ensures key in env ==> Apply(env, plan)[key] == env[key]
    decreases |plan|
  {
    if plan != [] {
      var env' := if plan[0].SetEnv? then env[plan[0].name := plan[0].value] else env;
      ApplyUntouched(env', plan[1..], key);
    }
  }

  /** When each variable is set once, each ends with the value it was set to. */
  lemma {:induction false} ApplySets(env: map<string, string>, plan: seq<Action>)
    requires forall i | 0 <= i < |plan| :: plan[i].SetEnv?
    requires forall i, j | 0 <= i < j < |plan| :: plan[i].name != plan[j].name
    ensures forall i | 0 <= i < |plan| :: plan[i].name in Apply(env, plan) && Apply(env, plan)[plan[i].name] == plan[i].value
    decreases |plan|
  {
    if plan != [] {
      var env' := env[plan[0].name := plan[0].value];
      var rest := plan[1..];
      ApplySets(env', rest);
      ApplyUntouched(env', rest, plan[0].name);
      forall i | 0 < i < |plan|
        ensures Apply(env, plan)[plan[i].name] == plan[i].value
      {
        assert rest[i - 1] == plan[i];
      }
    }
  }

  /**
   * The job's environment: HOME, USER and SWM_JOB_ID are always set; with a
   * working directory, PATH and PWD both become that directory followed by the
   * inherited PATH; nothing else changes.
   */
  lemma JobEnvironment(pw: Passwd, job: Job, env: map<string, string>, key: string)
    requires job.workdir != "" ==> "PATH" in env
    ensures var e := Apply(env, SetEnvironment(pw, job, env));
            && "HOME" in e && "USER" in e && "SWM_JOB_ID" in e
            && e["HOME"] == pw.dir && e["USER"] == pw.name && e["SWM_JOB_ID"] == job.id
            && (job.workdir != "" ==> "PATH" in e && "PWD" in e && e["PATH"] == e["PWD"] == job.workdir + ":" + env["PATH"])
            && (job.workdir == "" ==> ("PATH" in e <==> "PATH" in env) && ("PWD" in e <==> "PWD" in env))
            && (job.workdir == "" && "PATH" in env ==> e["PATH"] == env["PATH"])
            && (key !in {"HOME", "USER", "SWM_JOB_ID", "PATH", "PWD"} ==> (key in e <==> key in env) && (key in env ==> e[key] == env[key]))
  {
    var plan := SetEnvironment(pw, job, env);
    assert plan[0] == SetEnv("HOME", pw.dir) && plan[1] == SetEnv("USER", pw.name) && plan[2] == SetEnv("SWM_JOB_ID", job.id);
    if job.workdir != "" {
      assert plan[3] == SetEnv("PATH", JobPath(job.workdir, env["PATH"])) && plan[4] == SetEnv("PWD", JobPath(job.workdir, env["PATH"]));
    } else {
      ApplyUntouched(env, plan, "PATH");
      ApplyUntouched(env, plan, "PWD");
    }
    ApplySets(env, plan);
    if key !in {"HOME", "USER", "SWM_JOB_ID", "PATH", "PWD"} {
      ApplyUntouched(env, plan, key);
    }
  }

  /** `set_workdir`: the job's directory, or the user's home when the job names none. */
  function Workdir(pw: Passwd, job: Job): (dir: string)
    ensures dir == job.workdir || (job.workdir == "" && dir == pw.dir)
    ensures job.workdir == "" ==> dir == pw.dir
    ensures job.workdir != "" ==> dir == job.workdir
    ensures dir != "" ==> job.workdir != "" || pw.dir != ""
  {
    if job.workdir == "" then pw.dir else job.workdir
  }

  /** `switch_stdout` / `switch_stderr` for one stream, skipped when the job names no file. */
  function SwitchStream(stream: Stream, template: string, id: string): seq<Action> {
    if template == "" then []
    else
      var path := Substitute(template, id);
      [OpenFile(stream, path), Duplicate(stream, path)]
  }

  /** `set_io`: standard output first, then standard error. */
  function SetIo(job: Job): seq<Action> {
    SwitchStream(Stdout, job.stdoutPath, job.id) + SwitchStream(Stderr, job.stderrPath, job.id)
  }

  function ExecScript(path: string): Action {
    Exec(SHELL, [SHELL, "-c", path])
  }

  /** What the child does under the job's identity: environment, directory, streams, exec. */
  function Launch(pw: Passwd, job: Job, env: map<string, string>): seq<Action>
    requires job.workdir != "" ==> "PATH" in env
  {
    SetEnvironment(pw, job, env) + [Chdir(Workdir(pw, job))] + SetIo(job) + [ExecScript(ScriptPath(job.id))]
  }

  /** Everything the child does once its user is known, in order. */
  function ChildPlan(pw: Passwd, job: Job, env: map<string, string>): seq<Action>
    requires job.workdir != "" ==> "PATH" in env
  {
    SaveScript(job, pw) + (SetUidGid(pw) + Launch(pw, job, env))
  }

  /**
   * The position of an action in the child's protocol. The script is written,
   * made private and handed over while the porter still has its own
   * identity; the group is dropped before the user; the environment and
   * directory are set before the streams are switched; exec comes last.
   */
  function Phase(a: Action): nat {
    match a
    case GetPwNam(_) => 0
    case Sleep(_) => 0
    case WriteScript(_, _) => 1
    case Chmod(_, _) => 2
    case Chown(_, _, _) => 3
    case SetRegid(_) => 4
    case SetReuid(_) => 5
    case SetEnv(_, _) => 6
    case Chdir(_) => 7
    case OpenFile(s, _) => if s == Stdout then 8 else 10
    case Duplicate(s, _) => if s == Stdout then 9 else 11
    case Exec(_, _) => 12
  }

  predicate Ordered(plan: seq<Action>) {
    forall i, j | 0 <= i < j < |plan| :: Phase(plan[i]) <= Phase(plan[j])
  }

  /** Every action of `plan` lies in phases `lo` to `hi`. */
  predicate Within(plan: seq<Action>, lo: nat, hi: nat) {
    forall i | 0 <= i < |plan| :: lo <= Phase(plan[i]) <= hi
  }

  lemma Join(p: seq<Action>, q: seq<Action>, lo: nat, mid: nat, hi: nat)
    requires lo <= mid <= hi
    requires Ordered(p) && Within(p, lo, mid)
    requires Ordered(q) && Within(q, mid, hi)
    ensures Ordered(p + q) && Within(p + q, lo, hi)
  {
    forall i, j | 0 <= i < j < |p + q|
      ensures Phase((p + q)[i]) <= Phase((p + q)[j])
    {
      if j < |p| {
      } else if i >= |p| {
        assert (p + q)[i] == q[i - |p|] && (p + q)[j] == q[j - |p|];
      } else {
        assert (p + q)[i] == p[i] && (p + q)[j] == q[j - |p|];
      }
    }
    forall i | 0 <= i < |p + q|
      ensures lo <= Phase((p + q)[i]) <= hi
    {
      if i >= |p| {
        assert (p + q)[i] == q[i - |p|];
      } else {
        assert (p + q)[i] == p[i];
      }
    }
  }

  lemma EnvironmentOrdered(pw: Passwd, job: Job, env: map<string, string>)
    requires job.workdir != "" ==> "PATH" in env
    ensures Ordered(SetEnvironment(pw, job, env)) && Within(SetEnvironment(pw, job, env), 6, 6)
  {
    var plan := SetEnvironment(pw, job, env);
    forall i | 0 <= i < |plan|
      ensures plan[i].SetEnv?
    {
      if i >= 3 {
        assert job.workdir != "";
      }
    }
  }

  lemma SetIoOrdered(job: Job)
    ensures Ordered(SetIo(job)) && Within(SetIo(job), 8, 11)
  {
    Join(SwitchStream(Stdout, job.stdoutPath, job.id), SwitchStream(Stderr, job.stderrPath, job.id), 8, 9, 11);
  }

  /** Saving the script and switching identity each keep the protocol order. */
  lemma PrivilegeStepsOrdered(job: Job, pw: Passwd)
    ensures Ordered(SaveScript(job, pw)) && Within(SaveScript(job, pw), 1, 4)
    ensures Ordered(SetUidGid(pw)) && Within(SetUidGid(pw), 4, 6)
  {
    var save := SaveScript(job, pw);
    assert Phase(save[0]) == 1 && Phase(save[1]) == 2 && Phase(save[2]) == 3;
  }

  /** The child's steps follow the protocol order. */
  lemma ChildPlanOrdered(pw: Passwd, job: Job, env: map<string, string>)
    requires job.workdir != "" ==> "PATH" in env
    ensures Ordered(ChildPlan(pw, job, env))
  {
    var envs := SetEnvironment(pw, job, env);
    var chdir := [Chdir(Workdir(pw, job))];
    var io := SetIo(job);
    var exec := [ExecScript(ScriptPath(job.id))];
    EnvironmentOrdered(pw, job, env);
    Join(envs, chdir, 6, 7, 7);
    SetIoOrdered(job);
    Join(envs + chdir, io, 6, 8, 11);
    Join(envs + chdir + io, exec, 6, 12, 12);
    var launch := Launch(pw, job, env);
    assert launch == envs + chdir + io + exec;
    PrivilegeStepsOrdered(job, pw);
    Join(SetUidGid(pw), launch, 4, 6, 12);
    Join(SaveScript(job, pw), SetUidGid(pw) + launch, 1, 4, 12);
  }

  /** The script is saved and handed over, then the group and the user are changed, in that order. */
  lemma ChildPlanStart(pw: Passwd, job: Job, env: map<string, string>)
    requires job.workdir != "" ==> "PATH" in env
    ensures var plan := ChildPlan(pw, job, env);
            && |plan| > 5
            && plan[0] == WriteScript(ScriptPath(job.id), job.scriptContent)
            && plan[1] == Chmod(ScriptPath(job.id), S_IRWXU)
            && plan[2] == Chown(ScriptPath(job.id), pw.uid, pw.gid)
            && plan[3] == SetRegid(pw.gid)
            && plan[4] == SetReuid(pw.uid)
  {
  }

  /** The last thing the child does is exec the shell on the saved script. */
  lemma ChildPlanEnd(pw: Passwd, job: Job, env: map<string, string>)
    requires job.workdir != "" ==> "PATH" in env
    ensures var plan := ChildPlan(pw, job, env);
            plan[|plan| - 1] == Exec(SHELL, [SHELL, "-c", ScriptPath(job.id)])
  {
    var launch := Launch(pw, job, env);
    assert launch[|launch| - 1] == ExecScript(ScriptPath(job.id));
    var tail := SetUidGid(pw) + launch;
    assert tail[|tail| - 1] == launch[|launch| - 1];
    var plan := ChildPlan(pw, job, env);
    assert plan[|plan| - 1] == tail[|tail| - 1];
  }

  // Resolving the job's user.

  /** The lookups and sleeps made, and the entry found, if any. */
  datatype Lookup = Lookup(trace: seq<Action>, found: Option<Passwd>)

  /**
   * The lookup loop from the attempt after `failed` failures on: look the
   * user up; on failure, give up once `MAX_ATTEMPTS` lookups have failed,
   * otherwise sleep one second and retry.
   */
  function LookupUser(user: string, answers: nat -> Option<Passwd>, failed: nat): (r: Lookup)
    requires failed < MAX_ATTEMPTS
    decreases MAX_ATTEMPTS - failed
  {
    match answers(failed)
    case Some(pw) => Lookup([GetPwNam(user)], Some(pw))
    case None =>
      if failed + 1 >= MAX_ATTEMPTS then Lookup([GetPwNam(user)], None)
      else
        var rest := LookupUser(user, answers, failed + 1);
        Lookup([GetPwNam(user), Sleep(1)] + rest.trace, rest.found)
  }

  /** The number of lookups in a trace. */
  function CountLookups(trace: seq<Action>): nat
    decreases |trace|
  {
    if trace == [] then 0 else (if trace[0].GetPwNam? then 1 else 0) + CountLookups(trace[1..])
  }

  function CountSleeps(trace: seq<Action>): nat
    decreases |trace|
  {
    if trace == [] then 0 else (if trace[0].Sleep? then 1 else 0) + CountSleeps(trace[1..])
  }

  lemma {:induction false} CountsAppend(p: seq<Action>, q: seq<Action>)
    ensures CountLookups(p + q) == CountLookups(p) + CountLookups(q)
    ensures CountSleeps(p + q) == CountSleeps(p) + CountSleeps(q)
    decreases |p|
  {
    if p == [] {
      assert p + q == q;
    } else {
      assert (p + q)[1..] == p[1..] + q;
      CountsAppend(p[1..], q);
    }
  }

  lemma StepCounts(user: string)
    ensures CountLookups([GetPwNam(user)]) == 1 && CountSleeps([GetPwNam(user)]) == 0
    ensures CountLookups([GetPwNam(user), Sleep(1)]) == 1 && CountSleeps([GetPwNam(user), Sleep(1)]) == 1
  {
    var single: seq<Action> := [GetPwNam(user)];
    assert single[1..] == [];
    var two: seq<Action> := [GetPwNam(user), Sleep(1)];
    assert two[1..] == [Sleep(1)];
    assert two[1..][1..] == [];
  }

  /** A failed lookup that is not the last adds one lookup and one sleep before the rest. */
  lemma {:induction false} LookupUserStep(user: string, answers: nat -> Option<Passwd>, failed: nat)
    requires failed + 1 < MAX_ATTEMPTS && answers(failed).None?
    ensures var r := LookupUser(user, answers, failed);
            var rest := LookupUser(user, answers, failed + 1);
            && r.found == rest.found
            && CountLookups(r.trace) == 1 + CountLookups(rest.trace)
            && CountSleeps(r.trace) == 1 + CountSleeps(rest.trace)
            && (forall a | a in r.trace :: a in rest.trace || a == GetPwNam(user) || a == Sleep(1))
  {
    var rest := LookupUser(user, answers, failed + 1);
    var two: seq<Action> := [GetPwNam(user), Sleep(1)];
    StepCounts(user);
    CountsAppend(two, rest.trace);
    assert LookupUser(user, answers, failed).trace == two + rest.trace;
  }

  /** The trace holds only lookups and one-second sleeps, one sleep fewer than lookups. */
  lemma {:induction false} LookupUserShape(user: string, answers: nat -> Option<Passwd>, failed: nat)
    requires failed < MAX_ATTEMPTS
    ensures var r := LookupUser(user, answers, failed);
            && 1 <= CountLookups(r.trace) <= MAX_ATTEMPTS - failed
            && CountSleeps(r.trace) == CountLookups(r.trace) - 1
            && forall a | a in r.trace :: a == GetPwNam(user) || a == Sleep(1)
    decreases MAX_ATTEMPTS - failed
  {
    StepCounts(user);
    if answers(failed).None? && failed + 1 < MAX_ATTEMPTS {
      LookupUserShape(user, answers, failed + 1);
      LookupUserStep(user, answers, failed);
    }
  }

  /** The entry found is the answer of the last lookup, and every earlier lookup failed. */
  lemma {:induction false} LookupUserFinds(user: string, answers: nat -> Option<Passwd>, failed: nat)
    requires failed < MAX_ATTEMPTS
    ensures var r := LookupUser(user, answers, failed);
            var last := failed + CountLookups(r.trace) - 1;
            && (forall k | failed <= k < last :: answers(k).None?)
            && r.found == answers(last)
            && (r.found.None? <==> CountLookups(r.trace) == MAX_ATTEMPTS - failed && answers(last).None?)
    decreases MAX_ATTEMPTS - failed
  {
    StepCounts(user);
    LookupUserShape(user, answers, failed);
    if answers(failed).None? && failed + 1 < MAX_ATTEMPTS {
      LookupUserFinds(user, answers, failed + 1);
      LookupUserStep(user, answers, failed);
    }
  }

  /**
   * The loop makes at most `MAX_ATTEMPTS` lookups, sleeps one second between
   * consecutive lookups and never after the last, and finds the first entry
   * the lookups return; it gives up only when every remaining attempt fails.
   */
  lemma LookupUserBound(user: string, answers: nat -> Option<Passwd>, failed: nat)
    requires failed < MAX_ATTEMPTS
    ensures var r := LookupUser(user, answers, failed);
            && 1 <= CountLookups(r.trace) <= MAX_ATTEMPTS - failed
            && CountSleeps(r.trace) == CountLookups(r.trace) - 1
            && forall a | a in r.trace :: a == GetPwNam(user) || a == Sleep(1)
    ensures var r := LookupUser(user, answers, failed);
            var last := failed + CountLookups(r.trace) - 1;
            && (forall k | failed <= k < last :: answers(k).None?)
            && r.found == answers(last)
            && (r.found.None? <==> CountLookups(r.trace) == MAX_ATTEMPTS - failed && answers(last).None?)
  {
    LookupUserShape(user, answers, failed);
    LookupUserFinds(user, answers, failed);
  }

  /** A user that never appears: 20 lookups, 19 one-second sleeps, then EXIT_USER_NOT_FOUND. */
  lemma UserNeverFound(user: string, answers: nat -> Option<Passwd>)
    requires forall k: nat :: answers(k).None?
    ensures var r := LookupUser(user, answers, 0);
            r.found.None? && CountLookups(r.trace) == 20 && CountSleeps(r.trace) == 19
  {
    LookupUserBound(user, answers, 0);
  }

  // The whole porter.

  /** What `fork` returned in the process being followed. */
  datatype Fork = ForkFailed | InChild | InParent(childPid: Int32)

  /** The porter as followed through one side of the fork. */
  datatype Outcome =
    | NoJob(code: ExitCode)
    | Child(run: Run)
    | Parent(supervision: Supervision)

  /**
   * `main`. Input that cannot be read or decoded (`info == None`) ends the
   * porter with EXIT_FAILURE before it forks, and so does a failed fork. The
   * child resolves its user and then runs its plan; the parent supervises.
   */
  function Main(info: Option<ProcInfo>, fork: Fork, env: map<string, string>,
                answers: nat -> Option<Passwd>, sys: Action -> int, polls: seq<Poll>): (r: Outcome)
    requires info.Some? && info.value.job.workdir != "" ==> "PATH" in env
    ensures info.None? || fork.ForkFailed? <==> r == NoJob(ExitFailure)
    ensures r.Child? <==> info.Some? && fork.InChild?
    ensures r.Parent? ==> fork.InParent? && r.supervision == Supervise(fork.childPid, polls)
  {
    if info.None? then NoJob(ExitFailure)
    else match fork
      case ForkFailed => NoJob(ExitFailure)
      case InParent(pid) => Parent(Supervise(pid, polls))
      case InChild =>
        var look := LookupUser(info.value.userName, answers, 0);
        match look.found
        case None => Child(Run(look.trace, Some(ExitUserNotFound)))
        case Some(pw) =>
          var run := Perform(ChildPlan(pw, info.value.job, env), sys);
          Child(Run(look.trace + run.trace, run.exit))
  }

  /**
   * The child fails closed: every action before the last one succeeded, and
   * when the process still exists at the end of the trace it is because the
   * script was exec'd.
   */
  lemma ChildFailsClosed(info: ProcInfo, env: map<string, string>, answers: nat -> Option<Passwd>,
                         sys: Action -> int, pw: Passwd)
    requires info.job.workdir != "" ==> "PATH" in env
    requires LookupUser(info.userName, answers, 0).found == Some(pw)
    ensures var r := Main(Some(info), InChild, env, answers, sys, []).run;
            && PrefixRun(r.trace, LookupUser(info.userName, answers, 0).trace, ChildPlan(pw, info.job, env), sys)
            && (r.exit.None? ==> r.trace[|r.trace| - 1] == ExecScript(ScriptPath(info.job.id)))
  {
    var look := LookupUser(info.userName, answers, 0).trace;
    var plan := ChildPlan(pw, info.job, env);
    MainInChild(info, env, answers, sys, pw);
    ChildPlanEnd(pw, info.job, env);
    AfterLookup(look, plan, sys);
  }

  /** In the child, once the user is found, the run is the lookup followed by the plan's run. */
  lemma MainInChild(info: ProcInfo, env: map<string, string>, answers: nat -> Option<Passwd>,
                    sys: Action -> int, pw: Passwd)
    requires info.job.workdir != "" ==> "PATH" in env
    requires LookupUser(info.userName, answers, 0).found == Some(pw)
    ensures var run := Perform(ChildPlan(pw, info.job, env), sys);
            Main(Some(info), InChild, env, answers, sys, []) ==
              Child(Run(LookupUser(info.userName, answers, 0).trace + run.trace, run.exit))
  {
  }

  /**
   * `trace` is `look` followed by a prefix of `plan` in which every action but
   * the last succeeded.
   */
  predicate PrefixRun(trace: seq<Action>, look: seq<Action>, plan: seq<Action>, sys: Action -> int) {
    && |look| <= |trace| <= |look| + |plan|
    && trace[..|look|] == look
    && trace[|look|..] == plan[..|trace| - |look|]
    && (forall i | |look| <= i < |trace| - 1 :: Verdict(trace[i], sys(trace[i])).None?)
  }

  /** The lookup's actions followed by a plan's run fail closed, and a run that ends nobody ends with the plan's last action. */
  lemma AfterLookup(look: seq<Action>, plan: seq<Action>, sys: Action -> int)
    requires plan != []
    ensures var run := Perform(plan, sys);
            && PrefixRun(look + run.trace, look, plan, sys)
            && (run.exit.None? ==> run.trace != [] && (look + run.trace)[|look| + |run.trace| - 1] == plan[|plan| - 1])
  {
    var run := Perform(plan, sys);
    var trace := look + run.trace;
    assert trace[|look|..] == run.trace;
    forall i | |look| <= i < |trace| - 1
      ensures Verdict(trace[i], sys(trace[i])).None?
    {
      assert trace[i] == run.trace[i - |look|];
    }
  }

  /** A plan whose every action succeeds runs to the end. */
  lemma PerformAllPass(plan: seq<Action>, sys: Action -> int)
    requires forall a | a in plan :: Verdict(a, sys(a)).None?
    ensures Perform(plan, sys) == Run(plan, None)
  {
  }

  /**
   * Saving the script fails closed: when opening the file, `chmod` or `chown` fails,
   * the child exits with EXIT_FAILURE right after that step, before any
   * identity change.
   */
  lemma SaveScriptFailsClosed(pw: Passwd, job: Job, env: map<string, string>, sys: Action -> int, k: nat)
    requires job.workdir != "" ==> "PATH" in env
    requires k < 3
    requires forall i | 0 <= i < k :: Verdict(SaveScript(job, pw)[i], sys(SaveScript(job, pw)[i])).None?
    requires Verdict(SaveScript(job, pw)[k], sys(SaveScript(job, pw)[k])).Some?
    ensures Perform(ChildPlan(pw, job, env), sys) == Run(SaveScript(job, pw)[..k + 1], Some(ExitFailure))
  {
    var save := SaveScript(job, pw);
    var rest := SetUidGid(pw) + Launch(pw, job, env);
    PerformAppend(save, rest, sys);
    PerformStopsAt(save, sys, k);
    assert save[k].WriteScript? || save[k].Chmod? || save[k].Chown?;
  }

  /** The run of a plan stops at the first action whose status ends the process. */
  lemma {:induction false} PerformStopsAt(plan: seq<Action>, sys: Action -> int, k: nat)
    requires k < |plan|
    requires forall i | 0 <= i < k :: Verdict(plan[i], sys(plan[i])).None?
    requires Verdict(plan[k], sys(plan[k])).Some?
    ensures Perform(plan, sys) == Run(plan[..k + 1], Verdict(plan[k], sys(plan[k])))
    decreases k
  {
    if k > 0 {
      assert forall i | 0 <= i < k - 1 :: plan[1..][i] == plan[i + 1];
      PerformStopsAt(plan[1..], sys, k - 1);
      assert plan[..k + 1] == [plan[0]] + plan[1..][..k];
    }
  }

  /**
   * Privileges are dropped in order: if the group cannot be changed the child
   * exits with that status and never changes its user, and neither happens
   * before the script has been handed to the job's user.
   */
  lemma GroupBeforeUser(pw: Passwd, job: Job, env: map<string, string>, sys: Action -> int)
    requires job.workdir != "" ==> "PATH" in env
    requires forall a | a in SaveScript(job, pw) :: Verdict(a, sys(a)).None?
    requires sys(SetRegid(pw.gid)) < 0
    ensures var r := Perform(ChildPlan(pw, job, env), sys);
            && r.exit == Some(ExitStatus(sys(SetRegid(pw.gid))))
            && r.trace == SaveScript(job, pw) + [SetRegid(pw.gid)]
  {
    var save := SaveScript(job, pw);
    var rest := SetUidGid(pw) + Launch(pw, job, env);
    PerformAllPass(save, sys);
    PerformAppend(save, rest, sys);
    assert rest[0] == SetRegid(pw.gid);
  }

  /** With uid and gid 5000 the script is handed to 5000:5000 before the porter changes identity. */
  lemma ChownBeforeIdentitySwitch(job: Job, env: map<string, string>, name: string, dir: string)
    requires job.workdir != "" ==> "PATH" in env
    ensures var plan := ChildPlan(Passwd(name, 5000, 5000, dir), job, env);
            plan[2] == Chown(ScriptPath(job.id), 5000, 5000) && plan[3] == SetRegid(5000) && plan[4] == SetReuid(5000)
  {
    ChildPlanStart(Passwd(name, 5000, 5000, dir), job, env);
  }

  /** Only `set_io` opens files: every other step of the child is something else. */
  lemma OpenFileOnlyInSetIo(pw: Passwd, job: Job, env: map<string, string>, a: Action)
    requires job.workdir != "" ==> "PATH" in env
    requires a.OpenFile?
    ensures a in ChildPlan(pw, job, env) <==> a in SetIo(job)
  {
    var envs := SetEnvironment(pw, job, env);
    EnvironmentOrdered(pw, job, env);
    assert a !in envs;
    var early := envs + [Chdir(Workdir(pw, job))];
    assert a !in early;
    assert a in Launch(pw, job, env) <==> a in early + SetIo(job);
    assert a !in SaveScript(job, pw) && a !in SetUidGid(pw);
  }

  /** The only directory change the child makes is to the job's directory, or to the user's home when the job names none. */
  lemma ChildChangesDirectory(pw: Passwd, job: Job, env: map<string, string>, d: string)
    requires job.workdir != "" ==> "PATH" in env
    ensures Chdir(d) in ChildPlan(pw, job, env) <==> d == (if job.workdir == "" then pw.dir else job.workdir)
  {
    var envs := SetEnvironment(pw, job, env);
    var io := SetIo(job);
    assert Chdir(d) !in envs by {
      EnvironmentOrdered(pw, job, env);
    }
    assert Chdir(d) !in io;
    var plan := SaveScript(job, pw) + (SetUidGid(pw) + (envs + [Chdir(Workdir(pw, job))] + io + [ExecScript(ScriptPath(job.id))]));
    assert ChildPlan(pw, job, env) == plan;
    assert Chdir(d) in plan <==> Chdir(d) == Chdir(Workdir(pw, job));
  }

  /** A stream is opened at the substituted path exactly when the job names a file for it. */
  lemma SwitchStreamOpens(stream: Stream, other: Stream, template: string, id: string)
    requires other != stream
    ensures OpenFile(stream, Substitute(template, id)) in SwitchStream(stream, template, id) <==> template != ""
    ensures OpenFile(other, Substitute(template, id)) !in SwitchStream(stream, template, id)
  {
  }

  /** The output streams are opened at the job's paths with the placeholder replaced by the job id. */
  lemma StreamsUseSubstitutedPaths(pw: Passwd, job: Job, env: map<string, string>)
    requires job.workdir != "" ==> "PATH" in env
    ensures var plan := ChildPlan(pw, job, env);
            && (job.stdoutPath != "" <==> OpenFile(Stdout, Substitute(job.stdoutPath, job.id)) in plan)
            && (job.stderrPath != "" <==> OpenFile(Stderr, Substitute(job.stderrPath, job.id)) in plan)
  {
    var out := OpenFile(Stdout, Substitute(job.stdoutPath, job.id));
    var err := OpenFile(Stderr, Substitute(job.stderrPath, job.id));
    OpenFileOnlyInSetIo(pw, job, env, out);
    OpenFileOnlyInSetIo(pw, job, env, err);
    SwitchStreamOpens(Stdout, Stderr, job.stdoutPath, job.id);
    SwitchStreamOpens(Stderr, Stdout, job.stderrPath, job.id);
  }

  /** The output path template the job names for a stream. */
  function StreamTemplate(job: Job, stream: Stream): string {
    match stream
    case Stdout => job.stdoutPath
    case Stderr => job.stderrPath
  }

  /** Every step of `switch_stdout` / `switch_stderr` redirects its own stream to the substituted path. */
  lemma SwitchStreamShape(stream: Stream, template: string, id: string)
    ensures forall a | a in SwitchStream(stream, template, id) ::
      && (a.OpenFile? || a.Duplicate?)
      && template != ""
      && a.stream == stream
      && a.path == Substitute(template, id)
  {
  }

  /** What the child does before redirecting its output streams. */
  function BeforeIo(pw: Passwd, job: Job, env: map<string, string>): seq<Action>
    requires job.workdir != "" ==> "PATH" in env
  {
    SaveScript(job, pw) + SetUidGid(pw) + SetEnvironment(pw, job, env) + [Chdir(Workdir(pw, job))]
  }

  lemma ChildPlanAroundIo(pw: Passwd, job: Job, env: map<string, string>)
    requires job.workdir != "" ==> "PATH" in env
    ensures ChildPlan(pw, job, env) == BeforeIo(pw, job, env) + SetIo(job) + [ExecScript(ScriptPath(job.id))]
  {
  }

  lemma EnvironmentOnlySetEnv(pw: Passwd, job: Job, env: map<string, string>)
    requires job.workdir != "" ==> "PATH" in env
    ensures forall a | a in SetEnvironment(pw, job, env) :: a.SetEnv?
  {
  }

  /** Nothing before `set_io` opens or duplicates a stream, or execs. */
  lemma NoRedirectBeforeIo(pw: Passwd, job: Job, env: map<string, string>)
    requires job.workdir != "" ==> "PATH" in env
    ensures forall a | a in BeforeIo(pw, job, env) :: !a.OpenFile? && !a.Duplicate? && !a.Exec?
  {
    EnvironmentOnlySetEnv(pw, job, env);
  }

  /**
   * The only redirections the child makes are of a stream whose template is
   * non-empty, to that template with the placeholder replaced: a stream with
   * an empty template is neither opened nor duplicated onto anything.
   */
  lemma StreamRedirections(pw: Passwd, job: Job, env: map<string, string>)
    requires job.workdir != "" ==> "PATH" in env
    ensures forall a | a in ChildPlan(pw, job, env) && (a.OpenFile? || a.Duplicate?) ::
      && StreamTemplate(job, a.stream) != ""
      && a.path == Substitute(StreamTemplate(job, a.stream), job.id)
  {
    var out := SwitchStream(Stdout, job.stdoutPath, job.id);
    var err := SwitchStream(Stderr, job.stderrPath, job.id);
    SwitchStreamShape(Stdout, job.stdoutPath, job.id);
    SwitchStreamShape(Stderr, job.stderrPath, job.id);
    NoRedirectBeforeIo(pw, job, env);
    ChildPlanAroundIo(pw, job, env);
    var before := BeforeIo(pw, job, env);
    assert ChildPlan(pw, job, env) == before + (out + err) + [ExecScript(ScriptPath(job.id))];
    forall a | a in ChildPlan(pw, job, env) && (a.OpenFile? || a.Duplicate?)
      ensures StreamTemplate(job, a.stream) != "" && a.path == Substitute(StreamTemplate(job, a.stream), job.id)
    {
      assert a !in before;
      assert a in out || a in err;
    }
  }

  /** A stream whose template is empty is never redirected. */
  lemma EmptyTemplateNoRedirection(pw: Passwd, job: Job, env: map<string, string>, stream: Stream)
    requires job.workdir != "" ==> "PATH" in env
    requires StreamTemplate(job, stream) == ""
    ensures forall a | a in ChildPlan(pw, job, env) :: !((a.OpenFile? || a.Duplicate?) && a.stream == stream)
  {
    StreamRedirections(pw, job, env);
  }

  /**
   * The exit code of the child is the one `main` and its helpers give for the
   * first step that fails: EXIT_FAILURE for the script file, `chmod` and
   * `chown`; the status itself for `setregid` and `setreuid`; EXIT_FILE_ERROR
   * for `fopen`; EXIT_SYSTEM_ERROR for `dup2`; and EXIT_SUCCESS for `execve`,
   * whose failure falls through to the end of `main`. No other step ever fails.
   */
  lemma ChildExitCodes(pw: Passwd, job: Job, env: map<string, string>, sys: Action -> int, k: nat)
    requires job.workdir != "" ==> "PATH" in env
    requires k < |ChildPlan(pw, job, env)|
    requires forall i | 0 <= i < k :: Verdict(ChildPlan(pw, job, env)[i], sys(ChildPlan(pw, job, env)[i])).None?
    requires Verdict(ChildPlan(pw, job, env)[k], sys(ChildPlan(pw, job, env)[k])).Some?
    ensures var plan := ChildPlan(pw, job, env);
            var r := Perform(plan, sys);
            && r.trace == plan[..k + 1]
            && (plan[k].WriteScript? || plan[k].Chmod? || plan[k].Chown? ==> r.exit == Some(ExitFailure))
            && (plan[k].SetRegid? || plan[k].SetReuid? ==> r.exit == Some(ExitStatus(sys(plan[k]))) && sys(plan[k]) < 0)
            && (plan[k].OpenFile? ==> r.exit == Some(ExitFileError))
            && (plan[k].Duplicate? ==> r.exit == Some(ExitSystemError))
            && (plan[k].Exec? ==> r.exit == Some(ExitSuccess) && r.trace == plan)
            && !plan[k].SetEnv? && !plan[k].Chdir?
  {
    var plan := ChildPlan(pw, job, env);
    PerformStopsAt(plan, sys, k);
    VerdictFailure(plan[k], sys(plan[k]));
    if plan[k].Exec? {
      ExecOnlyLast(pw, job, env, k);
    }
  }

  lemma VerdictFailure(a: Action, status: int)
    requires Verdict(a, status).Some?
    ensures a.WriteScript? || a.Chmod? || a.Chown? ==> Verdict(a, status) == Some(ExitFailure)
    ensures a.SetRegid? || a.SetReuid? ==> Verdict(a, status) == Some(ExitStatus(status)) && status < 0
    ensures a.OpenFile? ==> Verdict(a, status) == Some(ExitFileError)
    ensures a.Duplicate? ==> Verdict(a, status) == Some(ExitSystemError)
    ensures a.Exec? ==> Verdict(a, status) == Some(ExitSuccess)
    ensures !a.SetEnv? && !a.Chdir?
  {
  }

  /** The exec of the script is the child's last step and its only exec. */
  lemma ExecOnlyLast(pw: Passwd, job: Job, env: map<string, string>, k: nat)
    requires job.workdir != "" ==> "PATH" in env
    requires k < |ChildPlan(pw, job, env)| && ChildPlan(pw, job, env)[k].Exec?
    ensures k == |ChildPlan(pw, job, env)| - 1
  {
    if k < |ChildPlan(pw, job, env)| - 1 {
      ExecNotBeforeEnd(pw, job, env, k);
    }
  }

  /** Only the last step of the child's plan is an exec. */
  lemma ExecNotBeforeEnd(pw: Passwd, job: Job, env: map<string, string>, i: nat)
    requires job.workdir != "" ==> "PATH" in env
    requires i < |ChildPlan(pw, job, env)| - 1
    ensures !ChildPlan(pw, job, env)[i].Exec?
  {
    var before := BeforeIo(pw, job, env);
    var io := SetIo(job);
    ChildPlanAroundIo(pw, job, env);
    NoRedirectBeforeIo(pw, job, env);
    SwitchStreamShape(Stdout, job.stdoutPath, job.id);
    SwitchStreamShape(Stderr, job.stderrPath, job.id);
    var plan := ChildPlan(pw, job, env);
    assert plan[i] == (before + io)[i];
    assert plan[i] in before || plan[i] in io;
  }

  /**
   * When every step up to the exec succeeds and `execve` fails, the child has
   * done its whole plan and ends with EXIT_SUCCESS, as if the script had run.
   */
  lemma FailedExecExitsSuccess(pw: Passwd, job: Job, env: map<string, string>, sys: Action -> int)
    requires job.workdir != "" ==> "PATH" in env
    requires forall i | 0 <= i < |ChildPlan(pw, job, env)| - 1 ::
      Verdict(ChildPlan(pw, job, env)[i], sys(ChildPlan(pw, job, env)[i])).None?
    requires sys(ExecScript(ScriptPath(job.id))) != 0
    ensures Perform(ChildPlan(pw, job, env), sys) == Run(ChildPlan(pw, job, env), Some(ExitSuccess))
  {
    var plan := ChildPlan(pw, job, env);
    ChildPlanEnd(pw, job, env);
    ChildExitCodes(pw, job, env, sys, |plan| - 1);
  }

  /**
   * Privileges are dropped in order: when the group is changed but the user
   * cannot be, the child exits with the status of `setreuid`.
   */
  lemma UserSwitchFails(pw: Passwd, job: Job, env: map<string, string>, sys: Action -> int)
    requires job.workdir != "" ==> "PATH" in env
    requires forall a | a in SaveScript(job, pw) :: Verdict(a, sys(a)).None?
    requires sys(SetRegid(pw.gid)) >= 0 && sys(SetReuid(pw.uid)) < 0
    ensures var r := Perform(ChildPlan(pw, job, env), sys);
            && r.exit == Some(ExitStatus(sys(SetReuid(pw.uid))))
            && r.trace == SaveScript(job, pw) + SetUidGid(pw)
  {
    StopsAtSecond(SaveScript(job, pw), SetRegid(pw.gid), SetReuid(pw.uid), Launch(pw, job, env), sys);
  }

  /** A prefix that passes, a step that passes and a step that fails: the run ends at the failing step. */
  lemma StopsAtSecond(p: seq<Action>, a: Action, b: Action, q: seq<Action>, sys: Action -> int)
    requires forall x | x in p :: Verdict(x, sys(x)).None?
    requires Verdict(a, sys(a)).None? && Verdict(b, sys(b)).Some?
    ensures Perform(p + ([a, b] + q), sys) == Run(p + [a, b], Verdict(b, sys(b)))
  {
    PerformAllPass(p, sys);
    PerformAppend(p, [a, b] + q, sys);
    assert ([a, b] + q)[1..] == [b] + q;
  }

  /**
   * A user the lookups never return ends the child after 20 lookups and 19
   * one-second sleeps with EXIT_USER_NOT_FOUND, before it does anything else.
   */
  lemma UserNotFoundExits(info: ProcInfo, env: map<string, string>, answers: nat -> Option<Passwd>,
                          sys: Action -> int, polls: seq<Poll>)
    requires info.job.workdir != "" ==> "PATH" in env
    requires forall k: nat :: answers(k).None?
    ensures var look := LookupUser(info.userName, answers, 0);
            && Main(Some(info), InChild, env, answers, sys, polls) == Child(Run(look.trace, Some(ExitUserNotFound)))
            && CountLookups(look.trace) == 20 && CountSleeps(look.trace) == 19
            && forall a | a in look.trace :: a == GetPwNam(info.userName) || a == Sleep(1)
  {
    UserNeverFound(info.userName, answers);
    LookupUserBound(info.userName, answers, 0);
  }
}
