/**
 `handle_message` end to end, with its collaborators passed in: the gate,
 the load, the reasoning service, the extraction, and the dispatch.
 */
module Handler {
  import opened Wrappers
  import opened PyStrings
  import opened Values
  import opened Gate
  import opened Extract
  import opened Journal
  import opened Store

  /** One inbound text message as the transport delivers it. */
  datatype Message = Message(userId: string, chatType: string, text: string)

  /** Everything outside the core: the journal file's content (`None` when
      absent), the two JSON decoders, and the reasoning service as a function
      from the delivered text to its free-text reply (today's date is fixed
      inside it). */
  datatype World = World(
    stored: Option<string>,
    decodeDoc: DocDecoder,
    service: string -> string,
    decodeReply: Decoder)

  /** How the handling of one message ends: the gate dropped it and it is
      ignored (nothing is loaded, saved or sent), an error propagated out of
      the handler (nothing is saved or sent), or a reply is sent, after
      saving the journal when `out.saved`. */
  datatype Outcome = Ignored | Aborted(error: Error) | Replied(out: StepOut)

  function Handle(msg: Message, world: World): (r: Outcome)
    ensures r.Ignored? <==> msg.chatType == GroupChat && !Contains(msg.text, BotUsername)
    ensures r.Aborted? ==> r.error == MalformedReply || r.error.MissingKey?
    ensures r.Replied? && !r.out.saved ==> r.out.memory == Load(world.stored, world.decodeDoc)
    ensures r.Replied? && r.out.saved ==>
              exists e :: AppendedOne(Load(world.stored, world.decodeDoc), r.out.memory, msg.userId, e)
  {
    match Route(msg.chatType, msg.text)
    case Dropped => Ignored
    case Deliver(text) =>
      var memory := Load(world.stored, world.decodeDoc);
      match Classify(world.service(text), world.decodeReply)
      case Failure(err) => Aborted(err)
      case Success(result) =>
        match Step(memory, msg.userId, result)
        case Failure(err) => Aborted(err)
        case Success(out) => Replied(out)
  }

  /** A reply with no `}` (or with no `{`) aborts the message before the
      journal is touched, given a decoder that rejects the empty text and a
      lone `}`. */
  lemma HandleWithoutBracesAborts(msg: Message, world: World)
    requires Route(msg.chatType, msg.text).Deliver?
    requires var reply := world.service(Route(msg.chatType, msg.text).text);
             Absent(reply, '{') || Absent(reply, '}')
    requires world.decodeReply([]) == None && world.decodeReply("}") == None
    ensures Handle(msg, world) == Aborted(MalformedReply)
  {
    ClassifyWithoutBracesFails(world.service(Route(msg.chatType, msg.text).text), world.decodeReply);
  }

  /** Handling a message never shortens or alters anyone's list: every
      user's list afterwards starts with their list as loaded, and only the
      sender's can have grown. */
  lemma HandleAppendOnly(msg: Message, world: World, user: string)
    requires Handle(msg, world).Replied?
    ensures var before := Load(world.stored, world.decodeDoc);
            var after := Handle(msg, world).out.memory;
            && LogOf(before, user) <= LogOf(after, user)
            && (user != msg.userId ==> LogOf(after, user) == LogOf(before, user))
            && |LogOf(after, user)| <= |LogOf(before, user)| + 1
  {
    var before := Load(world.stored, world.decodeDoc);
    var out := Handle(msg, world).out;
    if out.saved {
      var e :| AppendedOne(before, out.memory, msg.userId, e);
    }
  }

  /** The reply the service gives to the delivered text, classified. */
  function Classified(msg: Message, world: World): Result<Obj, Error>
    requires Route(msg.chatType, msg.text).Deliver?
  {
    Classify(world.service(Route(msg.chatType, msg.text).text), world.decodeReply)
  }

  /** End to end: when the service's reply to the delivered text classifies
      to a complete `log_run` result, the bot appends exactly that run to the
      sender's list of the loaded journal, saves, and confirms it. */
  lemma HandleLogRun(msg: Message, world: World)
    requires Route(msg.chatType, msg.text).Deliver?
    requires var c := Classified(msg, world);
             c.Success? && IsLogRun(c.value) && "date" in c.value && "distance_km" in c.value
    ensures var result := Classified(msg, world).value;
            var e := Entry(result["date"], result["distance_km"]);
            var r := Handle(msg, world);
            && r.Replied?
            && r.out.saved
            && AppendedOne(Load(world.stored, world.decodeDoc), r.out.memory, msg.userId, e)
            && r.out.reply == LoggedReply(e)
  {
  }

  /** End to end: when the reply classifies to any other intent, the bot
      answers with the fixed text for it and leaves the loaded journal
      unsaved and unchanged. */
  lemma HandleOtherIntent(msg: Message, world: World)
    requires Route(msg.chatType, msg.text).Deliver?
    requires var c := Classified(msg, world);
             c.Success? && "intent" in c.value && !IsLogRun(c.value)
    ensures var result := Classified(msg, world).value;
            var r := Handle(msg, world);
            && r.Replied?
            && !r.out.saved
            && r.out.memory == Load(world.stored, world.decodeDoc)
            && r.out.reply == (if result["intent"] == Str("analyze_progress") then AnalyzeReply else Apology)
  {
  }

  /** End to end: a delivered message whose service reply does not decode,
      or whose result lacks a field the dispatcher reads, is not answered:
      the error propagates out of the handler. */
  lemma HandleAborts(msg: Message, world: World)
    requires Route(msg.chatType, msg.text).Deliver?
    ensures Classified(msg, world).Failure? ==> Handle(msg, world) == Aborted(MalformedReply)
    ensures var c := Classified(msg, world);
            c.Success? && "intent" !in c.value ==> Handle(msg, world) == Aborted(MissingKey("intent"))
    ensures var c := Classified(msg, world);
            c.Success? && IsLogRun(c.value) && "date" !in c.value
            ==> Handle(msg, world) == Aborted(MissingKey("date"))
    ensures var c := Classified(msg, world);
            c.Success? && IsLogRun(c.value) && "date" in c.value && "distance_km" !in c.value
            ==> Handle(msg, world) == Aborted(MissingKey("distance_km"))
  {
  }
}
