/** The `add_task` view of the scheduler's web front end: a GET suggests a
    random task name, a POST runs the validation chain whose success is the
    single `insert_task` call on the scheduler.

    The submitted form is a map from field names to text. Whether the
    croniter constructor accepts a cron text is the function parameter
    `cronParses`; a field missing from the form makes Flask answer 400. */
module Presenter {
  import opened Wrappers
  import Scheduler

  /** `string.ascii_lowercase + string.digits`. */
  const NameAlphabet: string := "abcdefghijklmnopqrstuvwxyz0123456789"

  /** What the view answers. */
  datatype Reply =
    | Page(suggestedName: string)      // the HTML form with the suggested name, status 200
    | Text(status: int, body: string)  // `Response(body, status=status)`
    | MissingField(field: string)      // `request.form[field]` raised: Flask's 400

  function Status(r: Reply): int {
    match r
    case Page(_) => 200
    case Text(status, _) => status
    case MissingField(_) => 400
  }

  // -----------------------------------------------------------------------
  // Splitting the cron text

  /** `s.split(" ")`: the pieces between single spaces, empty pieces
      included; the empty text gives one empty piece. */
  function SplitSpaces(s: string): (parts: seq<string>)
    ensures parts != []
    decreases |s|
  {
    if s == [] then [""]
    else
      var rest := SplitSpaces(s[1..]);
      if s[0] == ' ' then [""] + rest
      else [[s[0]] + rest[0]] + rest[1..]
  }

  /** `" ".join(parts)`. */
  function JoinSpaces(parts: seq<string>): string
    requires parts != []
    decreases |parts|
  {
    if |parts| == 1 then parts[0] else parts[0] + " " + JoinSpaces(parts[1..])
  }

  predicate SpaceFree(parts: seq<string>) {
    forall i :: 0 <= i < |parts| ==> ' ' !in parts[i]
  }

  /** Splitting loses nothing: the pieces hold no space and rejoin to the text. */
  lemma {:induction false} SplitThenJoin(s: string)
    ensures JoinSpaces(SplitSpaces(s)) == s && SpaceFree(SplitSpaces(s))
    decreases |s|
  {
    if s != [] {
      var rest := SplitSpaces(s[1..]);
      SplitThenJoin(s[1..]);
      if s[0] == ' ' {
        assert ([""] + rest)[1..] == rest;
      } else {
        var parts := [[s[0]] + rest[0]] + rest[1..];
        assert parts[1..] == rest[1..];
        if |rest| > 1 {
          calc {
            JoinSpaces(parts);
            ([s[0]] + rest[0]) + " " + JoinSpaces(rest[1..]);
            [s[0]] + (rest[0] + " " + JoinSpaces(rest[1..]));
            [s[0]] + s[1..];
          }
        }
        assert s == [s[0]] + s[1..];
        forall i | 0 <= i < |parts| ensures ' ' !in parts[i] {
          if i > 0 {
            assert parts[i] == rest[i];
          }
        }
      }
    }
  }

  /** Joining pieces that hold no space and splitting again gives the pieces back. */
  lemma {:induction false} JoinThenSplit(parts: seq<string>)
    requires parts != [] && SpaceFree(parts)
    ensures SplitSpaces(JoinSpaces(parts)) == parts
    decreases |parts|
  {
    if |parts| == 1 {
      SplitWord(parts[0], "");
      assert parts[0] + "" == parts[0];
    } else {
      var tail := parts[1..];
      assert SpaceFree(tail) by {
        forall i | 0 <= i < |tail| ensures ' ' !in tail[i] {
          assert tail[i] == parts[i + 1];
        }
      }
      JoinThenSplit(tail);
      var t := " " + JoinSpaces(tail);
      assert t[1..] == JoinSpaces(tail);
      assert SplitSpaces(t) == [""] + tail;
      SplitWord(parts[0], t);
      assert parts[0] + t == JoinSpaces(parts);
      assert parts[0] + "" == parts[0];
      assert parts == [parts[0]] + tail;
    }
  }

  /** A word without spaces in front of a text extends the text's first piece. */
  lemma {:induction false} SplitWord(w: string, t: string)
    requires ' ' !in w
    ensures SplitSpaces(w + t) == [w + SplitSpaces(t)[0]] + SplitSpaces(t)[1..]
    decreases |w|
  {
    var st := SplitSpaces(t);
    if w != [] {
      SplitWord(w[1..], t);
      var rest := SplitSpaces((w + t)[1..]);
      assert (w + t)[1..] == w[1..] + t;
      assert rest[0] == w[1..] + st[0] && rest[1..] == st[1..];
      assert [w[0]] + (w[1..] + st[0]) == w + st[0];
    } else {
      assert w + t == t && w + st[0] == st[0];
      assert st == [st[0]] + st[1..];
    }
  }

  /** Fields of a well-shaped cron text: five or six, none empty, none
      holding a space. */
  predicate CronFields(parts: seq<string>) {
    && (|parts| == 5 || |parts| == 6)
    && forall i :: 0 <= i < |parts| ==> parts[i] != [] && ' ' !in parts[i]
  }

  /** Lines 338-341: the cron text split on single spaces gives five or six
      fields and none is empty. */
  predicate CronShapeOk(cron: string) {
    var f := SplitSpaces(cron);
    (|f| == 5 || |f| == 6) && forall i :: 0 <= i < |f| ==> f[i] != []
  }

  /** The shape check accepts exactly the texts that are five or six
      non-empty, space-free fields joined by single spaces; so a double
      space, or a space at either end, is rejected. */
  lemma CronShapeMeaning(cron: string)
    ensures CronShapeOk(cron) <==> exists parts :: CronFields(parts) && JoinSpaces(parts) == cron
  {
    SplitThenJoin(cron);
    if exists parts :: CronFields(parts) && JoinSpaces(parts) == cron {
      var parts :| CronFields(parts) && JoinSpaces(parts) == cron;
      JoinThenSplit(parts);
    }
    if CronShapeOk(cron) {
      assert CronFields(SplitSpaces(cron));
    }
  }

  /** The form's default cron is well shaped ... */
  lemma DefaultCronAccepted()
    ensures CronShapeOk("* * * * *")
  {
    var parts := ["*", "*", "*", "*", "*"];
    assert JoinSpaces(parts[4..]) == "*";
    assert JoinSpaces(parts[3..]) == "* *";
    assert JoinSpaces(parts[2..]) == "* * *";
    assert JoinSpaces(parts[1..]) == "* * * *";
    assert JoinSpaces(parts) == "* * * * *";
    assert CronFields(parts);
    CronShapeMeaning("* * * * *");
  }

  /** ... and the same with a doubled space is not. */
  lemma DoubleSpaceRejected()
    ensures !CronShapeOk("* *  * * *")
  {
    var parts := ["*", "*", "", "*", "*", "*"];
    assert JoinSpaces(parts[5..]) == "*";
    assert JoinSpaces(parts[4..]) == "* *";
    assert JoinSpaces(parts[3..]) == "* * *";
    assert JoinSpaces(parts[2..]) == " * * *";
    assert JoinSpaces(parts[1..]) == "*  * * *";
    assert JoinSpaces(parts) == "* *  * * *";
    JoinThenSplit(parts);
  }

  // -----------------------------------------------------------------------
  // The POST branch

  /** An `insert_task(name, task)` call. */
  datatype Insertion = Insertion(name: string, task: Scheduler.Trigger)

  /** The reply to a request and the `insert_task` call it makes, if any. */
  datatype Outcome = Outcome(reply: Reply, insert: Option<Insertion>)

  /** `bool(request.form.get(field))`. */
  function Checked(form: map<string, string>, field: string): bool {
    field in form && form[field] != []
  }

  /** Lines 321-357: the checks in source order, the first failure
      answering 400; on success a task is inserted with the submitted
      cron and checkbox and the answer is 201; a method other than GET or
      POST gets 405. */
  function Respond(verb: string, form: map<string, string>, tasks: map<string, Scheduler.Trigger>,
                   cronParses: string -> bool): Outcome
    requires verb != "GET"
  {
    if verb != "POST" then Outcome(Text(405, "Method not allowed"), None)
    else if "task_name" !in form then Outcome(MissingField("task_name"), None)
    else if form["task_name"] == [] then Outcome(Text(400, "Task name is required"), None)
    else if "cron" !in form then Outcome(MissingField("cron"), None)
    else if form["cron"] == [] then Outcome(Text(400, "Cron is required"), None)
    else if !cronParses(form["cron"]) then Outcome(Text(400, "Invalid cron"), None)
    else if form["task_name"] in tasks then Outcome(Text(400, "Task already exists"), None)
    else if !CronShapeOk(form["cron"]) then Outcome(Text(400, "Invalid cron"), None)
    else
      var task := Scheduler.Trigger(form["cron"], Checked(form, "immediate_first_run"));
      Outcome(Text(201, "Task added"), Some(Insertion(form["task_name"], task)))
  }

  /** One validation: whether it passes and the answer when it fails. */
  datatype Check = Check(passes: bool, failure: Reply)

  function Field(form: map<string, string>, k: string): string {
    if k in form then form[k] else []
  }

  /** The checks of a POST as a table, in the order they are made. */
  function Checks(form: map<string, string>, tasks: map<string, Scheduler.Trigger>,
                  cronParses: string -> bool): seq<Check>
  {
    var name, cron := Field(form, "task_name"), Field(form, "cron");
    [ Check("task_name" in form, MissingField("task_name")),
      Check(name != [], Text(400, "Task name is required")),
      Check("cron" in form, MissingField("cron")),
      Check(cron != [], Text(400, "Cron is required")),
      Check(cronParses(cron), Text(400, "Invalid cron")),
      Check(name !in tasks, Text(400, "Task already exists")),
      Check(CronShapeOk(cron), Text(400, "Invalid cron")) ]
  }

  /** The answer of the first check that fails, if any. */
  function FirstFailure(checks: seq<Check>): Option<Reply> {
    if checks == [] then None
    else if !checks[0].passes then Some(checks[0].failure)
    else FirstFailure(checks[1..])
  }

  /** A POST answers as the first failing check of the table, without
      inserting; when every check passes it inserts the submitted task,
      once, and answers 201. Every failure is a 400. */
  lemma PostFollowsChecks(form: map<string, string>, tasks: map<string, Scheduler.Trigger>,
                          cronParses: string -> bool)
    ensures var o, f := Respond("POST", form, tasks, cronParses), FirstFailure(Checks(form, tasks, cronParses));
            && (o.insert.None? <==> f.Some?)
            && (f.Some? ==> o.reply == f.value && Status(o.reply) == 400)
            && (f.None? ==> o.reply == Text(201, "Task added")
                            && o.insert == Some(Insertion(form["task_name"],
                                                Scheduler.Trigger(form["cron"], Checked(form, "immediate_first_run")))))
  {
    var cs := Checks(form, tasks, cronParses);
    var k := if !cs[0].passes then 0 else if !cs[1].passes then 1 else if !cs[2].passes then 2
             else if !cs[3].passes then 3 else if !cs[4].passes then 4 else if !cs[5].passes then 5
             else if !cs[6].passes then 6 else 7;
    FirstFailureAt(cs, k);
    if k < 7 {
      assert cs[k..][0] == cs[k];
    } else {
      assert cs[k..] == [];
    }
  }

  /** Passing checks are skipped. */
  lemma {:induction false} FirstFailureAt(checks: seq<Check>, k: nat)
    requires k <= |checks| && forall i :: 0 <= i < k ==> checks[i].passes
    ensures FirstFailure(checks) == FirstFailure(checks[k..])
    decreases k
  {
    if k > 0 {
      FirstFailureAt(checks[1..], k - 1);
      assert checks[1..][k - 1..] == checks[k..];
    }
  }

  /** A name that is already taken is never inserted again. */
  lemma ExistingNameNeverInserted(form: map<string, string>, tasks: map<string, Scheduler.Trigger>,
                                  cronParses: string -> bool)
    requires "task_name" in form && form["task_name"] in tasks
    ensures Respond("POST", form, tasks, cronParses).insert == None
  {
  }

  // -----------------------------------------------------------------------
  // The view

  /** A suggested name: "task_" and ten characters of `NameAlphabet`. */
  predicate IsTaskName(s: string) {
    |s| == 15 && s[..5] == "task_" && forall i :: 5 <= i < 15 ==> s[i] in NameAlphabet
  }

  /** Lines 237-242: ten `random.choice` draws appended to "task_". */
  method GenTaskName() returns (name: string)
    ensures IsTaskName(name)
  {
    name := "task_";
    assert name[..5] == "task_";
    var k := 0;
    while k < 10
      invariant 0 <= k <= 10 && |name| == 5 + k && name[..5] == "task_"
      invariant forall i :: 5 <= i < |name| ==> name[i] in NameAlphabet
    {
      assert NameAlphabet[0] in NameAlphabet;
      var c :| c in NameAlphabet;
      assert (name + [c])[..5] == name[..5];
      name := name + [c];
      k := k + 1;
    }
  }

  /** `add_task` against the running scheduler: a GET answers the form
      with a fresh suggested name and changes nothing; otherwise the answer
      is `Respond`'s, and `insert_task` is called exactly when `Respond`
      says so, with its arguments. */
  method AddTask(app: Scheduler.App, verb: string, form: map<string, string>, cronParses: string -> bool)
    returns (reply: Reply)
    requires app.Valid()
    modifies app, app.sleeper
    ensures app.Valid()
    ensures verb == "GET" ==> reply.Page? && IsTaskName(reply.suggestedName) && unchanged(app, app.sleeper)
    ensures verb != "GET" ==>
              var o := Respond(verb, form, old(app.tasks), cronParses);
              && reply == o.reply
              && match o.insert
                 case None => unchanged(app, app.sleeper)
                 case Some(ins) =>
                   && ins.name !in old(app.tasks)
                   && app.tasks == old(app.tasks)[ins.name := ins.task]
                   && app.order == old(app.order) + [ins.name]
                   && app.sleeper.cancelled && app.nextCheck == None
                   && app.lastRunAt == old(app.lastRunAt) && app.lastRunCheck == old(app.lastRunCheck)
  {
    if verb == "GET" {
      var name := GenTaskName();
      return Page(name);
    }
    var o := Respond(verb, form, app.tasks, cronParses);
    reply := o.reply;
    if o.insert.Some? {
      app.InsertTask(o.insert.value.name, o.insert.value.task);
    }
  }
}
