/**
 * The catch-all exception filter: decides whether an exception is logged,
 * logs it, then answers the caller according to the kind of host that raised
 * it (an interaction of the bot, or an HTTP request).
 */
module AppExceptionFilter {
  import opened Wrappers
  import opened InteractionErrors

  /** The first host argument of a `necord` host, the interaction context. */
  datatype NecordContext =
    /** missing or falsy: `if (!context)` */
    | NoContext
    /** present but not an array: `const [interaction] = context` throws a TypeError */
    | NotIterable
    /** an array whose first element is the interaction when it is a BaseInteraction */
    | Args(interaction: Option<Interaction>)

  /** The kind of execution context, `host.getType()`, with what the filter reads of it. */
  datatype Host = Necord(context: NecordContext) | Http | OtherHost

  predicate HasContext(host: Host) {
    !(host.Necord? && !host.context.Args?)
  }

  predicate InInteraction(host: Host) {
    host.Necord? && host.context.Args? && host.context.interaction.Some?
  }

  /**
   * `shouldLog`: true unless the exception is one of the three expected
   * platform errors raised where a context is present. An InteractionError is
   * logged outside interactions explicitly and inside them by falling through
   * to the final `return true`; a failure while deciding also ends there.
   */
  function ShouldLog(ex: Thrown, host: Host): (log: bool)
    ensures !log <==> ex.DiscordApi? && ex.code in KnownCodes && HasContext(host)
    ensures ex.Intentional? ==> log
  {
    if host.Necord? && host.context.NoContext? then true
    else if host.Necord? && host.context.NotIterable? then true
    else
      var isInteraction := InInteraction(host);
      if ex.Intentional? && !isInteraction then true
      else if ex.DiscordApi? then ex.code !in KnownCodes
      else true
  }

  /** What is logged: `exception?.message || String(exception)`. */
  function LogText(ex: Thrown): (r: string)
    ensures MessageOf(ex) != "" ==> r == MessageOf(ex)
    ensures MessageOf(ex) == "" ==> r == TextOf(ex)
    ensures ex.Intentional? ==> r != ""
    ensures ex.NonError? && ex.messageProp == "" ==> r == ex.text
  {
    if MessageOf(ex) != "" then MessageOf(ex) else TextOf(ex)
  }

  const InternalServerError := 500

  /** The status of the HTTP answer. */
  function HttpStatus(ex: Thrown): (status: int)
    ensures ex.HttpLike? && ex.status.Some? ==> status == ex.status.value
    ensures !(ex.HttpLike? && ex.status.Some?) ==> status == InternalServerError
  {
    if ex.HttpLike? && ex.status.Some? then ex.status.value else InternalServerError
  }

  /** The body of the HTTP answer. */
  function HttpBodyOf(ex: Thrown): (b: HttpBody)
    ensures b.OwnResponse? <==> ex.HttpLike? && ex.response.Some?
    ensures b.OwnResponse? ==> b.payload == ex.response.value
    ensures b.StatusBody? ==> b.statusCode == HttpStatus(ex) && b.message == LogText(ex)
    ensures !ex.HttpLike? ==> b == StatusBody(InternalServerError, LogText(ex))
  {
    if ex.HttpLike? && ex.response.Some? then OwnResponse(ex.response.value)
    else StatusBody(HttpStatus(ex), LogText(ex))
  }

  /** The log call made first, if the exception is to be logged. */
  function LogPart(ex: Thrown, host: Host): seq<Action> {
    if ShouldLog(ex, host) then [Log(Error, [LogText(ex)])] else []
  }

  /** The calls `catch` makes, and whether it rejects (the TypeError of an unusable context). */
  datatype CatchOutcome = CatchOutcome(trace: seq<Action>, rejected: bool)

  /** The specification of `catch`. */
  function CatchEffects(ex: Thrown, host: Host, failure: Option<string>): (o: CatchOutcome)
    ensures |LogPart(ex, host)| <= |o.trace| && o.trace[..|LogPart(ex, host)|] == LogPart(ex, host)
    ensures o.rejected <==> host == Necord(NotIterable)
    ensures InInteraction(host) ==>
              o.trace == LogPart(ex, host) + ReplyEffects(host.context.interaction.value, ex, failure)
    ensures Attempts(o.trace) == (if InInteraction(host) && host.context.interaction.value.repliable then 1 else 0)
    ensures host.Http? ==> o.trace == LogPart(ex, host) + [RespondHttp(HttpStatus(ex), HttpBodyOf(ex))]
    ensures host.Http? && ex.HttpLike? && ex.status.Some? ==> o.trace[|o.trace| - 1].status == ex.status.value
    ensures host.Http? && !(ex.HttpLike? && ex.status.Some?) ==> o.trace[|o.trace| - 1].status == 500
    ensures host.Http? && !(ex.HttpLike? && ex.response.Some?) ==>
              o.trace[|o.trace| - 1].body == StatusBody(o.trace[|o.trace| - 1].status, LogText(ex))
    ensures !InInteraction(host) && !host.Http? ==> o.trace == LogPart(ex, host)
  {
    var logged := LogPart(ex, host);
    assert Attempts(logged) == 0 by {
      if logged != [] { assert logged[1..] == []; }
    }
    match host
    case Necord(ctx) =>
      if ctx.Args? && ctx.interaction.Some? then
        var replied := ReplyEffects(ctx.interaction.value, ex, failure);
        CountsOfConcat(logged, replied);
        CatchOutcome(logged + replied, false)
      else
        CatchOutcome(logged, ctx.NotIterable?)
    case Http =>
      var answer := [RespondHttp(HttpStatus(ex), HttpBodyOf(ex))];
      CountsOfConcat(logged, answer);
      assert answer[1..] == [];
      CatchOutcome(logged + answer, false)
    case OtherHost =>
      CatchOutcome(logged, false)
  }

  /**
   * `AppExceptionFilter.catch`: log first if `shouldLog` says so; then, for a
   * necord host, delegate to `InteractionError.reply` when the first context
   * argument is an interaction, and for an HTTP host answer with a status and
   * a body.
   */
  method Catch(ex: Thrown, host: Host, failure: Option<string>) returns (trace: seq<Action>, rejected: bool)
    ensures CatchOutcome(trace, rejected) == CatchEffects(ex, host, failure)
  {
    trace, rejected := [], false;
    if ShouldLog(ex, host) {
      trace := trace + [Log(Error, [LogText(ex)])];
    }
    assert trace == LogPart(ex, host);
    if host.Necord? {
      if host.context.NoContext? {
        return;
      }
      if host.context.NotIterable? {
        rejected := true;
        return;
      }
      if host.context.interaction.Some? {
        var replied := Reply(host.context.interaction.value, ex, failure);
        trace := trace + replied;
      }
      return;
    }
    if host.Http? {
      var status := if ex.HttpLike? && ex.status.Some? then ex.status.value else InternalServerError;
      var body := if ex.HttpLike? && ex.response.Some? then OwnResponse(ex.response.value)
                  else StatusBody(status, LogText(ex));
      assert status == HttpStatus(ex) && body == HttpBodyOf(ex);
      trace := trace + [RespondHttp(status, body)];
    }
  }

  /**
   * An InteractionError raised inside an interaction is both replied to and
   * logged: the explicit early `return true` only covers other contexts, and
   * the fall-through covers this one.
   */
  lemma IntentionalErrorInInteractionIsLogged(e: InteractionError, failure: Option<string>)
    ensures var o := CatchEffects(Intentional(e), Necord(Args(Some(Interaction(true, false, false)))), failure);
            o.trace[0] == Log(Error, [LogText(Intentional(e))]) &&
            o.trace[1] == SendReply(e.userMessage, true)
  {
    var host := Necord(Args(Some(Interaction(true, false, false))));
    assert LogPart(Intentional(e), host) == [Log(Error, [LogText(Intentional(e))])];
  }

  /** An expected platform error on an interaction already answered: one edit, no log. */
  lemma MissingPermissionsOnRepliedInteraction(info: ErrorInfo)
    ensures CatchEffects(DiscordApi(MissingPermissionsCode, info), Necord(Args(Some(Interaction(true, false, true)))), None).trace
            == [EditReply(MissingPermissionsText)]
  {
    var ex := DiscordApi(MissingPermissionsCode, info);
    var i := Interaction(true, false, true);
    assert LogPart(ex, Necord(Args(Some(i)))) == [];
    var r := ReplyEffects(i, ex, None);
    assert r == [EditReply(MissingPermissionsText)] + FailureLog(None);
  }

  /**
   * An ordinary Error reaching an HTTP host is logged and answered with status
   * 500 and its own message, not with the generic user message.
   */
  lemma PlainErrorOverHttp(name: string, message: string)
    requires message != ""
    ensures CatchEffects(OtherError(ErrorInfo(name, message)), Http, None).trace
            == [Log(Error, [message]), RespondHttp(500, StatusBody(500, message))]
  {
  }
}
