/**
 * The error type meant to be shown to a user (`InteractionError`), the
 * classification of any thrown value into one (`fromError`) and the reply
 * that reports it on an interaction (`reply`).
 *
 * The platform SDK's side is reduced to values: an interaction is the record
 * of its three lifecycle flags, whether the SDK call fails is a parameter, and
 * every call the code makes (reply, edit, log) is an `Action` in a returned trace.
 */
module InteractionErrors {
  import opened Wrappers

  /** An Error raised on purpose, with the message to show to the user. */
  datatype InteractionError = InteractionError(userMessage: string, internalMessage: Option<string>)
  {
    /** The `message` the constructor passes to `super`: `internalMessage || userMessage`. */
    function Message(): string {
      if internalMessage.Some? && internalMessage.value != "" then internalMessage.value else userMessage
    }
  }

  const InteractionErrorName := "InteractionError"

  /** The `name` and `message` of an Error instance other than an InteractionError. */
  datatype ErrorInfo = ErrorInfo(name: string, message: string)

  /** A response body as produced by an exception's own `getResponse()`; opaque here. */
  type Payload = string

  /**
   * Any value that can reach a catch block.
   * - Intentional: an InteractionError.
   * - DiscordApi: a DiscordAPIError; `code` is the code rendered as text (`${err.code}`).
   * - HttpLike: an Error whose `getStatus` / `getResponse` are functions (an HTTP
   *   exception); `None` where the method is missing.
   * - OtherError: any other Error instance.
   * - NonError: a thrown value that is not an Error; `text` is `String(value)` and
   *   `messageProp` its `message` property ("" when absent or falsy).
   */
  datatype Thrown =
    | Intentional(error: InteractionError)
    | DiscordApi(code: string, info: ErrorInfo)
    | HttpLike(status: Option<int>, response: Option<Payload>, info: ErrorInfo)
    | OtherError(info: ErrorInfo)
    | NonError(text: string, messageProp: string)

  /** `Error.prototype.toString`: name and message separated by ": ", either omitted when empty. */
  function ErrorText(name: string, message: string): string {
    if name == "" then message else if message == "" then name else name + ": " + message
  }

  /** The value's `message` property ("" when absent). */
  function MessageOf(t: Thrown): string {
    match t
    case Intentional(e) => e.Message()
    case DiscordApi(_, info) => info.message
    case HttpLike(_, _, info) => info.message
    case OtherError(info) => info.message
    case NonError(_, m) => m
  }

  /** `String(value)`. */
  function TextOf(t: Thrown): string {
    match t
    case Intentional(e) => ErrorText(InteractionErrorName, e.Message())
    case DiscordApi(_, info) => ErrorText(info.name, info.message)
    case HttpLike(_, _, info) => ErrorText(info.name, info.message)
    case OtherError(info) => ErrorText(info.name, info.message)
    case NonError(text, _) => text
  }

  const MissingPermissionsCode := "50013"
  const MissingAccessCode := "50001"
  const UnknownMessageCode := "10008"

  const MissingPermissionsText := "I don't have the required permissions to perform that action."
  const MissingAccessText := "I don't have access to that something."
  const UnknownMessageText := "That message no longer exists."
  const GenericText := "Something went wrong."

  /** The three platform codes the bot expects and cannot prevent. */
  const KnownCodes: set<string> := {MissingPermissionsCode, MissingAccessCode, UnknownMessageCode}

  /** The user message `fromError` picks for a value that is not an InteractionError. */
  function ClassifiedText(t: Thrown): string {
    if t.DiscordApi? && t.code == MissingPermissionsCode then MissingPermissionsText
    else if t.DiscordApi? && t.code == MissingAccessCode then MissingAccessText
    else if t.DiscordApi? && t.code == UnknownMessageCode then UnknownMessageText
    else GenericText
  }

  /**
   * `new InteractionError(userMessage, internalMessage)`: the Error message is
   * the internal message when there is a non-empty one, the user message otherwise.
   */
  function NewInteractionError(userMessage: string, internalMessage: Option<string>): (e: InteractionError)
    ensures e.userMessage == userMessage && e.internalMessage == internalMessage
    ensures internalMessage.Some? && internalMessage.value != "" ==> e.Message() == internalMessage.value
    ensures internalMessage.None? || internalMessage == Some("") ==> e.Message() == userMessage
  {
    InteractionError(userMessage, internalMessage)
  }

  /**
   * `InteractionError.fromError`: an InteractionError is returned as it is; any
   * other value gets the message of its platform code (three known codes) or the
   * generic one, and keeps its own message (an Error) or its text (anything else)
   * as the internal message.
   */
  function FromError(t: Thrown): (e: InteractionError)
    ensures t.Intentional? ==> e == t.error
    ensures t.DiscordApi? && t.code == MissingPermissionsCode ==> e.userMessage == MissingPermissionsText
    ensures t.DiscordApi? && t.code == MissingAccessCode ==> e.userMessage == MissingAccessText
    ensures t.DiscordApi? && t.code == UnknownMessageCode ==> e.userMessage == UnknownMessageText
    ensures !t.Intentional? && !(t.DiscordApi? && t.code in KnownCodes) ==> e.userMessage == GenericText
    ensures !t.Intentional? && !t.NonError? ==> e.internalMessage == Some(t.info.message)
    ensures t.NonError? ==> e.internalMessage == Some(t.text)
  {
    match t
    case Intentional(err) => err
    case NonError(text, _) => NewInteractionError(ClassifiedText(t), Some(text))
    case _ => NewInteractionError(ClassifiedText(t), Some(t.info.message))
  }

  /** Classifying an already classified error changes nothing. */
  lemma FromErrorIdempotent(t: Thrown)
    ensures FromError(Intentional(FromError(t))) == FromError(t)
  {
  }

  /** A classified value always has something to show the user, unless the application raised an empty message itself. */
  lemma FromErrorUserMessageNonEmpty(t: Thrown)
    requires !t.Intentional?
    ensures FromError(t).userMessage != ""
    ensures FromError(t).userMessage in {MissingPermissionsText, MissingAccessText, UnknownMessageText, GenericText}
  {
  }

  /** The lifecycle flags of an interaction, as the SDK reports them. */
  datatype Interaction = Interaction(repliable: bool, deferred: bool, replied: bool)

  datatype Level = Warn | Error

  /** A call the code makes to the outside world. */
  datatype Action =
    | EditReply(content: string)
    | SendReply(content: string, ephemeral: bool)
    | Log(level: Level, args: seq<string>)
    | RespondHttp(status: int, body: HttpBody)

  /** The body `res.json` sends: the exception's own payload, or `{statusCode, message}`. */
  datatype HttpBody = OwnResponse(payload: Payload) | StatusBody(statusCode: int, message: string)

  const FailedReplyText := "Failed to reply to interaction"
  const NotRepliableText := "Interaction is not repliable, cannot send error message to user:"

  /**
   * The text logged for an error that cannot be shown: `internalMessage || message
   * || String(error)`. Since `message` is already `internalMessage || userMessage`,
   * this is the message, or the bare error name when the message is empty; never "".
   */
  function LoggedText(e: InteractionError): (r: string)
    ensures e.Message() != "" ==> r == e.Message()
    ensures e.Message() == "" ==> r == InteractionErrorName
    ensures r != ""
  {
    if e.internalMessage.Some? && e.internalMessage.value != "" then e.internalMessage.value
    else if e.Message() != "" then e.Message()
    else ErrorText(InteractionErrorName, e.Message())
  }

  predicate IsAttempt(a: Action) { a.EditReply? || a.SendReply? }

  predicate IsErrorLog(a: Action) { a.Log? && a.level == Error }

  /** Number of reply or edit calls in a trace. */
  function Attempts(trace: seq<Action>): nat {
    if trace == [] then 0 else (if IsAttempt(trace[0]) then 1 else 0) + Attempts(trace[1..])
  }

  /** Number of error-level log calls in a trace. */
  function ErrorLogs(trace: seq<Action>): nat {
    if trace == [] then 0 else (if IsErrorLog(trace[0]) then 1 else 0) + ErrorLogs(trace[1..])
  }

  lemma CountsOfConcat(a: seq<Action>, b: seq<Action>)
    ensures Attempts(a + b) == Attempts(a) + Attempts(b)
    ensures ErrorLogs(a + b) == ErrorLogs(a) + ErrorLogs(b)
  {
    if a == [] {
      assert a + b == b;
    } else {
      assert (a + b)[1..] == a[1..] + b;
      CountsOfConcat(a[1..], b);
    }
  }

  /** The log entry written when the SDK call rejected with `failure`, if it did. */
  function FailureLog(failure: Option<string>): seq<Action> {
    if failure.Some? then [Log(Error, [FailedReplyText, failure.value])] else []
  }

  /**
   * The calls `InteractionError.reply` makes for `interaction` and `err`, when the
   * SDK call it makes rejects with `failure` (or succeeds, `None`).
   */
  function ReplyEffects(interaction: Interaction, err: Thrown, failure: Option<string>): (trace: seq<Action>)
    ensures interaction.repliable ==> Attempts(trace) == 1
    ensures !interaction.repliable ==> Attempts(trace) == 0
    ensures ErrorLogs(trace) == (if !interaction.repliable || failure.Some? then 1 else 0)
    ensures interaction.repliable && (interaction.deferred || interaction.replied) ==>
              trace[0] == EditReply(FromError(err).userMessage)
    ensures interaction.repliable && !interaction.deferred && !interaction.replied ==>
              trace[0] == SendReply(FromError(err).userMessage, true)
    ensures !interaction.repliable ==>
              trace == [Log(Warn, [NotRepliableText, FromError(err).userMessage]),
                        Log(Error, [LoggedText(FromError(err))])]
  {
    var e := FromError(err);
    if interaction.repliable then
      var attempt := if interaction.deferred || interaction.replied then EditReply(e.userMessage)
                     else SendReply(e.userMessage, true);
      CountsOfConcat([attempt], FailureLog(failure));
      [attempt] + FailureLog(failure)
    else
      var logs := [Log(Warn, [NotRepliableText, e.userMessage]), Log(Error, [LoggedText(e)])];
      assert logs[1..][1..] == [];
      assert Attempts(logs[1..]) == 0 && ErrorLogs(logs[1..]) == 1;
      logs
  }

  /**
   * `InteractionError.reply`: classify, then edit the reply of a deferred or
   * answered interaction, send an ephemeral reply to a fresh one, or only log
   * when the interaction cannot be replied to. A rejected call is logged once
   * and nothing is retried or rethrown.
   */
  method Reply(interaction: Interaction, err: Thrown, failure: Option<string>) returns (trace: seq<Action>)
    ensures trace == ReplyEffects(interaction, err, failure)
  {
    var e := FromError(err);
    if interaction.repliable {
      if interaction.deferred || interaction.replied {
        trace := [EditReply(e.userMessage)];
      } else {
        trace := [SendReply(e.userMessage, true)];
      }
      if failure.Some? {
        trace := trace + [Log(Error, [FailedReplyText, failure.value])];
      }
    } else {
      trace := [Log(Warn, [NotRepliableText, e.userMessage])];
      trace := trace + [Log(Error, [LoggedText(e)])];
    }
  }
}
