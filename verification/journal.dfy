/**
 The journal and the intent dispatch of `handle_message`: given the loaded
 journal, the caller's id and the decoded result, what the journal becomes,
 what the bot replies, and whether the journal is written back.
 */
module Journal {
  import opened Wrappers
  import opened Values

  /** One logged run: the `date` and `distance_km` fields copied verbatim
      from the service's result, unvalidated. */
  datatype Entry = Entry(date: Value, distanceKm: Value)

  /** The journal: user id to that user's runs in logging order. */
  type Memory = map<string, seq<Entry>>

  /** The result of dispatching one decoded result. `saved` records that the
      whole journal was written back. */
  datatype StepOut = StepOut(memory: Memory, reply: string, saved: bool)

  const AnalyzeReply: string := "I beg your pardon?"
  const Apology: string :=
    "Sorry, I didn\U{2019}t understand that. Try logging a run or asking about your progress."

  /** `memory.get(user, [])`. */
  function LogOf(memory: Memory, user: string): (log: seq<Entry>)
    ensures user in memory ==> log == memory[user]
    ensures user !in memory ==> log == []
  {
    if user in memory then memory[user] else []
  }

  /** The decoded result asks to log a run. */
  predicate IsLogRun(result: Obj)
  {
    "intent" in result && result["intent"] == Str("log_run")
  }

  /** `after` is `before` with exactly `e` appended to `user`'s list (which
      is created if absent), every other user's list and key untouched. */
  predicate AppendedOne(before: Memory, after: Memory, user: string, e: Entry)
  {
    && after.Keys == before.Keys + {user}
    && after[user] == LogOf(before, user) + [e]
    && forall u :: u in before && u != user ==> after[u] == before[u]
  }

  /** The confirmation sent after logging a run. */
  function LoggedReply(e: Entry): (r: string)
    ensures var d, t := Render(e.distanceKm), Render(e.date);
            && |r| == |d| + |t| + 20
            && r[..8] == "Logged: "
            && r[8..8 + |d|] == d
            && r[8 + |d|..19 + |d|] == " km run on "
            && r[19 + |d|..|r| - 1] == t
            && r[|r| - 1] == '.'
  {
    "Logged: " + Render(e.distanceKm) + " km run on " + Render(e.date) + "."
  }

  /** Dispatch one decoded result for `user`. A missing `intent` (or, for
      `log_run`, a missing `date` or `distance_km`) raises `KeyError` before
      anything changes; `log_run` appends one entry and saves; every other
      intent replies with fixed text and leaves the journal alone. */
  function Step(memory: Memory, user: string, result: Obj): (r: Result<StepOut, Error>)
    ensures r.Failure? <==>
              "intent" !in result
              || (IsLogRun(result) && ("date" !in result || "distance_km" !in result))
    ensures r.Failure? ==> r.error == MissingKey(
              if "intent" !in result then "intent"
              else if "date" !in result then "date"
              else "distance_km")
    ensures r.Success? ==> (r.value.saved <==> IsLogRun(result))
    ensures r.Success? && r.value.saved ==>
              var e := Entry(result["date"], result["distance_km"]);
              AppendedOne(memory, r.value.memory, user, e) && r.value.reply == LoggedReply(e)
    ensures r.Success? && !r.value.saved ==>
              && r.value.memory == memory
              && r.value.reply == (if result["intent"] == Str("analyze_progress") then AnalyzeReply else Apology)
  {
    if "intent" !in result then Failure(MissingKey("intent"))
    else if result["intent"] == Str("log_run") then
      if "date" !in result then Failure(MissingKey("date"))
      else if "distance_km" !in result then Failure(MissingKey("distance_km"))
      else
        var e := Entry(result["date"], result["distance_km"]);
        Success(StepOut(memory[user := LogOf(memory, user) + [e]], LoggedReply(e), true))
    else if result["intent"] == Str("analyze_progress") then
      Success(StepOut(memory, AnalyzeReply, false))
    else
      Success(StepOut(memory, Apology, false))
  }

  /** The journal after a step: unchanged when the step raised. */
  function After(memory: Memory, user: string, result: Obj): Memory
  {
    match Step(memory, user, result)
    case Success(out) => out.memory
    case Failure(_) => memory
  }

  /** Messages handled one after another by `next`, each seeing the journal
      the previous one left. */
  function ReplayWith(memory: Memory, msgs: seq<(string, Obj)>, next: (Memory, string, Obj) -> Memory): Memory
    decreases |msgs|
  {
    if msgs == [] then memory
    else ReplayWith(next(memory, msgs[0].0, msgs[0].1), msgs[1..], next)
  }

  /** Messages handled one after another by the bot, with no interleaving,
      each step handed the in-memory journal the previous step produced. */
  function Replay(memory: Memory, msgs: seq<(string, Obj)>): Memory
  {
    ReplayWith(memory, msgs, After)
  }

  /** The entry one message logs for `user`: one for a complete `log_run`
      result sent by that user, none otherwise. */
  function LoggedFor(sender: string, result: Obj, user: string): seq<Entry>
  {
    if sender == user && IsLogRun(result) && "date" in result && "distance_km" in result
    then [Entry(result["date"], result["distance_km"])]
    else []
  }

  /** The entries that `msgs` logs for `user`, in order. */
  function LoggedBy(msgs: seq<(string, Obj)>, user: string): seq<Entry>
    decreases |msgs|
  {
    if msgs == [] then []
    else LoggedFor(msgs[0].0, msgs[0].1, user) + LoggedBy(msgs[1..], user)
  }

  /** One step extends `user`'s list by exactly what that message logs for
      it, and keeps every key. */
  lemma AfterLog(memory: Memory, sender: string, result: Obj, user: string)
    ensures LogOf(After(memory, sender, result), user)
            == LogOf(memory, user) + LoggedFor(sender, result, user)
    ensures memory.Keys <= After(memory, sender, result).Keys
  {
    if !IsLogRun(result) || "date" !in result || "distance_km" !in result {
      assert LogOf(memory, user) + [] == LogOf(memory, user);
    }
  }

  lemma Reassociate(a: seq<Entry>, b: seq<Entry>, c: seq<Entry>)
    ensures (a + b) + c == a + (b + c)
  {
  }

  /** A handler that extends `user`'s list by exactly what each message logs
      leaves, after any run of messages, the old list followed by everything
      logged, in order. */
  lemma {:induction false} ReplayWithAppendOnly(memory: Memory, msgs: seq<(string, Obj)>,
                                                next: (Memory, string, Obj) -> Memory, user: string)
    requires forall m, s, r :: LogOf(next(m, s, r), user) == LogOf(m, user) + LoggedFor(s, r, user)
    ensures LogOf(ReplayWith(memory, msgs, next), user) == LogOf(memory, user) + LoggedBy(msgs, user)
    decreases |msgs|
  {
    if msgs == [] {
      assert LogOf(memory, user) + [] == LogOf(memory, user);
    } else {
      var m1 := next(memory, msgs[0].0, msgs[0].1);
      ReplayWithAppendOnly(m1, msgs[1..], next, user);
      Reassociate(LogOf(memory, user), LoggedFor(msgs[0].0, msgs[0].1, user), LoggedBy(msgs[1..], user));
    }
  }

  /** The journal is append-only: after any run of messages, each user's
      list is the old list followed by exactly the entries that user logged,
      in order. */
  lemma ReplayAppendOnly(memory: Memory, msgs: seq<(string, Obj)>, user: string)
    ensures LogOf(Replay(memory, msgs), user) == LogOf(memory, user) + LoggedBy(msgs, user)
  {
    forall m, s, r
      ensures LogOf(After(m, s, r), user) == LogOf(m, user) + LoggedFor(s, r, user)
    {
      AfterLog(m, s, r, user);
    }
    ReplayWithAppendOnly(memory, msgs, After, user);
  }

  /** A handler that never drops a key never drops one over a run of
      messages. */
  lemma {:induction false} ReplayWithKeepsUsers(memory: Memory, msgs: seq<(string, Obj)>,
                                                next: (Memory, string, Obj) -> Memory)
    requires forall m: Memory, s: string, r: Obj :: m.Keys <= next(m, s, r).Keys
    ensures memory.Keys <= ReplayWith(memory, msgs, next).Keys
    decreases |msgs|
  {
    if msgs != [] {
      ReplayWithKeepsUsers(next(memory, msgs[0].0, msgs[0].1), msgs[1..], next);
    }
  }

  /** No user ever disappears from the journal. */
  lemma ReplayKeepsUsers(memory: Memory, msgs: seq<(string, Obj)>)
    ensures memory.Keys <= Replay(memory, msgs).Keys
  {
    forall m: Memory, s: string, r: Obj
      ensures m.Keys <= After(m, s, r).Keys
    {
      AfterLog(m, s, r, "");
    }
    ReplayWithKeepsUsers(memory, msgs, After);
  }

  /** The result the service returns for "ran 5 km on 1 May 2024". */
  function ExampleResult(): Obj
  {
    map["intent" := Str("log_run"), "activity" := Str("running"),
        "distance_km" := Int(5), "date" := Str("2024-05-01"),
        "request_language" := Str("en")]
  }

  lemma ExampleReplyText()
    ensures LoggedReply(Entry(Str("2024-05-01"), Int(5))) == "Logged: 5 km run on 2024-05-01."
  {
    assert Render(Int(5)) == "5";
    assert Render(Str("2024-05-01")) == "2024-05-01";
  }

  /** The worked example: that result for user U appends the entry
      {date: 2024-05-01, distance_km: 5}, saves, and confirms it in those
      words. */
  lemma LogRunExample(memory: Memory)
    ensures var r := Step(memory, "U", ExampleResult());
            && r.Success?
            && r.value.saved
            && LogOf(r.value.memory, "U") == LogOf(memory, "U") + [Entry(Str("2024-05-01"), Int(5))]
            && r.value.reply == "Logged: 5 km run on 2024-05-01."
  {
    ExampleReplyText();
  }
}
