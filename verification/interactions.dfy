/**
 * The interaction handler: the message context-menu action, the language
 * buttons, the slash commands, and the top-level fallback that answers when
 * a handler throws. Each handler is a pure function from the event, the
 * message cache and the translation service's answer to the platform calls
 * it makes, the translation request it issues and the new cache.
 */
module Interactions {
  import opened Wrappers
  import opened MessageCache
  import opened Languages
  import opened CustomId
  import opened ButtonLayout
  import opened Translator

  /** The content of an (ephemeral) interaction response; `InfoPage` stands for the fixed support and invite texts. */
  datatype Body = Message(text: string, rows: seq<Row>) | InfoPage(command: string)

  /** The platform calls a handler makes on its interaction, in order. */
  datatype Action = Defer | Reply(body: Body) | EditReply(body: Body)

  datatype Event =
    | ContextMenu(target: Option<string>)
    | ButtonClick(customId: string)
    | ChatCommand(name: string, language: string, text: string)
    | OtherInteraction

  /** A handler's result; `threw` means an exception escaped to the top-level handler. */
  datatype Outcome = Outcome(actions: seq<Action>, request: Option<Request>, cache: Cache, threw: bool)

  const ACCESS_DENIED: string := "\U{274C} I cannot access the message content. This might happen if the message is too old."
  const PICKER_PROMPT: string := "Choose a language to translate to:"
  const SESSION_EXPIRED: string := "\U{274C} Translation session expired. Please try translating the message again."
  const BUTTON_ERROR: string := "\U{274C} Sorry, there was an error translating the message."
  const PROCESSING_ERROR: string := "\U{274C} Sorry, there was an error processing your request."

  /** The success text of the button and slash-command paths: `Translation (L):` then a line break and the text. */
  function SuccessText(lang: string, text: string): string
  {
    "Translation (" + lang + "):\n" + text
  }

  function Notice(text: string): Body
  {
    Message(text, [])
  }

  // ---------------------------------------------------------------------------
  // Acknowledgement discipline of the platform
  // ---------------------------------------------------------------------------

  /** The `replied` and `deferred` flags the platform keeps on an interaction. */
  datatype AckState = AckState(replied: bool, deferred: bool)

  const FRESH: AckState := AckState(false, false)

  predicate Acknowledged(s: AckState)
  {
    s.replied || s.deferred
  }

  /**
   * The platform's rule for one call: deferring or replying needs an
   * unacknowledged interaction, editing needs an acknowledged one; a
   * rejected call is `None`. Reply and edit set `replied`, defer sets `deferred`.
   */
  function Apply(s: AckState, a: Action): (r: Option<AckState>)
    ensures r.Some? <==> (a.EditReply? <==> Acknowledged(s))
    ensures r.Some? ==> Acknowledged(r.value)
  {
    match a
    case Defer => if Acknowledged(s) then None else Some(AckState(s.replied, true))
    case Reply(_) => if Acknowledged(s) then None else Some(AckState(true, s.deferred))
    case EditReply(_) => if Acknowledged(s) then Some(AckState(true, s.deferred)) else None
  }

  /** Performs `actions` in order from `s`; `None` as soon as the platform rejects one. */
  function Run(s: AckState, actions: seq<Action>): Option<AckState>
    decreases |actions|
  {
    if |actions| == 0 then Some(s)
    else
      match Apply(s, actions[0])
      case None => None
      case Some(t) => Run(t, actions[1..])
  }

  /** Running one more call continues from where the first calls left off. */
  lemma {:induction false} RunAppend(s: AckState, actions: seq<Action>, a: Action)
    ensures Run(s, actions + [a]) == (match Run(s, actions) case None => None case Some(t) => Apply(t, a))
    decreases |actions|
  {
    if |actions| == 0 {
      assert [a][1..] == [];
    } else {
      assert (actions + [a])[1..] == actions[1..] + [a];
      match Apply(s, actions[0])
      case None =>
      case Some(t) => RunAppend(t, actions[1..], a);
    }
  }

  /** The number of user-visible answers (replies and edits) among `actions`. */
  function Answers(actions: seq<Action>): nat
    decreases |actions|
  {
    if |actions| == 0 then 0
    else (if actions[0].Defer? then 0 else 1) + Answers(actions[1..])
  }

  lemma {:induction false} AnswersAppend(actions: seq<Action>, a: Action)
    ensures Answers(actions + [a]) == Answers(actions) + (if a.Defer? then 0 else 1)
    decreases |actions|
  {
    if |actions| > 0 {
      assert (actions + [a])[1..] == actions[1..] + [a];
      AnswersAppend(actions[1..], a);
    }
  }

  /** The call sequences the handlers make: nothing, a bare defer, one direct reply, or a defer followed by one edit. */
  lemma HandlerShapes()
    ensures Run(FRESH, []).Some? && Answers([]) == 0
    ensures Run(FRESH, [Defer]).Some? && Answers([Defer]) == 0
    ensures forall b :: Run(FRESH, [Reply(b)]).Some? && Answers([Reply(b)]) == 1
    ensures forall b :: Run(FRESH, [Defer, EditReply(b)]).Some? && Answers([Defer, EditReply(b)]) == 1
  {
    forall b: Body
      ensures Run(FRESH, [Defer, EditReply(b)]).Some? && Answers([Defer, EditReply(b)]) == 1
    {
      assert [Defer, EditReply(b)][1..] == [EditReply(b)];
      assert Run(AckState(false, true), [EditReply(b)]) == Some(AckState(true, true));
      assert Answers([EditReply(b)]) == 1;
    }
  }

  /**
   * The fallback of the top-level `catch`: a direct reply when the
   * interaction is neither replied to nor deferred, an edit otherwise; either
   * way one generic error message, and a call the platform accepts.
   */
  function Fallback(s: AckState): (a: Action)
    ensures a.Reply? <==> !s.replied && !s.deferred
    ensures a.EditReply? <==> Acknowledged(s)
    ensures a.body == Notice(PROCESSING_ERROR)
    ensures Apply(s, a).Some?
  {
    if !s.replied && !s.deferred then Reply(Notice(PROCESSING_ERROR)) else EditReply(Notice(PROCESSING_ERROR))
  }

  /**
   * Whatever calls a handler made before throwing, as long as the platform
   * accepted them and none of them answered, the fallback is accepted too and
   * the user ends up with exactly one answer.
   */
  lemma FallbackAnswersOnce(actions: seq<Action>, t: AckState)
    requires Run(FRESH, actions) == Some(t)
    requires Answers(actions) == 0
    ensures Run(FRESH, actions + [Fallback(t)]).Some?
    ensures Answers(actions + [Fallback(t)]) == 1
  {
    RunAppend(FRESH, actions, Fallback(t));
    AnswersAppend(actions, Fallback(t));
  }

  // ---------------------------------------------------------------------------
  // Handlers
  // ---------------------------------------------------------------------------

  /** A context-menu target has usable text: the message exists and its content is not empty. */
  predicate HasContent(target: Option<string>)
  {
    target.Some? && target.value != ""
  }

  /**
   * "Translate Message": without usable text, a direct access-denied reply
   * and no cache write; otherwise defer, cache the text under `key` stamped
   * `now`, and edit in the language picker, whose buttons all carry `key`.
   */
  function OnContextMenu(target: Option<string>, cache: Cache, key: string, now: int): (o: Outcome)
    ensures o.request == None && !o.threw
    ensures !HasContent(target) ==> o.actions == [Reply(Notice(ACCESS_DENIED))] && o.cache == cache
    ensures HasContent(target) ==>
              && o.cache == Put(cache, key, target.value, now)
              && |o.actions| == 2 && o.actions[0] == Defer && o.actions[1].EditReply?
              && o.actions[1].body.Message? && o.actions[1].body.text == PICKER_PROMPT
              && IsLayout(o.actions[1].body.rows, Buttons(LANGUAGES, key))
  {
    if !HasContent(target) then
      Outcome([Reply(Notice(ACCESS_DENIED))], None, cache, false)
    else
      var rows := Layout(Buttons(LANGUAGES, key));
      Outcome([Defer, EditReply(Message(PICKER_PROMPT, rows))], None, Put(cache, key, target.value, now), false)
  }

  /**
   * A language button: always defers first. A foreign action gets nothing
   * more. A key that is missing or not cached gets the session-expired edit
   * and no translation. Otherwise the cached text is translated into the
   * button's language; on success the result is edited in and the entry is
   * deleted, on failure the error notice is edited in and the entry stays.
   */
  function OnButton(customId: string, cache: Cache, translation: Translation): (o: Outcome)
    ensures !o.threw && |o.actions| >= 1 && o.actions[0] == Defer
    ensures Decode(customId).action != ACTION ==> o.actions == [Defer] && o.cache == cache && o.request == None
    ensures o.request.None? ==> o.cache == cache
    ensures o.request.Some? <==>
              Decode(customId).action == ACTION && Decode(customId).key.Some? && Decode(customId).key.value in cache
    ensures o.request.Some? ==>
              var k := Decode(customId).key.value;
              && o.request.value == Request(cache[k].content, Decode(customId).lang.value)
              && (translation.Translated? ==>
                    o.cache == Delete(cache, k)
                    && o.actions == [Defer, EditReply(Notice(SuccessText(o.request.value.target, translation.text)))])
              && (translation.TranslationFailed? ==>
                    o.cache == cache && o.actions == [Defer, EditReply(Notice(BUTTON_ERROR))])
    ensures Decode(customId).action == ACTION && o.request.None? ==>
              o.actions == [Defer, EditReply(Notice(SESSION_EXPIRED))]
  {
    var f := Decode(customId);
    if f.action != ACTION then
      Outcome([Defer], None, cache, false)
    else if f.key.None? || Get(cache, f.key.value).None? then
      Outcome([Defer, EditReply(Notice(SESSION_EXPIRED))], None, cache, false)
    else
      var k := f.key.value;
      var request := Request(cache[k].content, f.lang.value);
      match translation
      case Translated(text) =>
        Outcome([Defer, EditReply(Notice(SuccessText(f.lang.value, text)))], Some(request), Delete(cache, k), false)
      case TranslationFailed =>
        Outcome([Defer, EditReply(Notice(BUTTON_ERROR))], Some(request), cache, false)
  }

  /**
   * Slash commands. `translate` defers, translates the given text into the
   * given language and edits in the result; a translation failure is not
   * caught here and escapes after the defer. `support` and `invite` reply
   * with their fixed page. Other names do nothing. The cache is untouched.
   */
  function OnChatCommand(name: string, language: string, text: string, cache: Cache, translation: Translation): (o: Outcome)
    ensures o.cache == cache
    ensures o.request.Some? <==> name == "translate"
    ensures o.request.Some? ==> o.request.value == Request(text, language)
    ensures o.threw <==> name == "translate" && translation.TranslationFailed?
    ensures name == "translate" && translation.Translated? ==>
              o.actions == [Defer, EditReply(Notice(SuccessText(language, translation.text)))]
    ensures o.threw ==> o.actions == [Defer]
    ensures name == "support" || name == "invite" ==> o.actions == [Reply(InfoPage(name))]
  {
    if name == "translate" then
      match translation
      case Translated(t) => Outcome([Defer, EditReply(Notice(SuccessText(language, t)))], Some(Request(text, language)), cache, false)
      case TranslationFailed => Outcome([Defer], Some(Request(text, language)), cache, true)
    else if name == "support" || name == "invite" then
      Outcome([Reply(InfoPage(name))], None, cache, false)
    else
      Outcome([], None, cache, false)
  }

  /** The interactions the bot answers: every context-menu action and `translate` button, and its three commands. */
  predicate IsAnswered(e: Event)
  {
    match e
    case ContextMenu(_) => true
    case ButtonClick(id) => Decode(id).action == ACTION
    case ChatCommand(name, _, _) => name == "translate" || name == "support" || name == "invite"
    case OtherInteraction => false
  }

  /** The handler before the top-level `catch` takes over. */
  function Dispatch(e: Event, cache: Cache, key: string, now: int, translation: Translation): Outcome
  {
    match e
    case ContextMenu(target) => OnContextMenu(target, cache, key, now)
    case ButtonClick(id) => OnButton(id, cache, translation)
    case ChatCommand(name, language, text) =>
      OnChatCommand(name, language, text, cache, translation)
    case OtherInteraction => Outcome([], None, cache, false)
  }

  /** What the handler hands to the top-level `catch`: accepted calls, and no answer yet exactly when it threw. */
  lemma DispatchShape(e: Event, cache: Cache, key: string, now: int, translation: Translation)
    ensures var d := Dispatch(e, cache, key, now, translation);
            && (d.threw ==> d.actions == [Defer] && IsAnswered(e) && Run(FRESH, d.actions).Some? && Answers(d.actions) == 0)
            && (!d.threw ==> Run(FRESH, d.actions).Some? && Answers(d.actions) == (if IsAnswered(e) then 1 else 0))
  {
    HandlerShapes();
    match e
    case ContextMenu(target) =>
    case ButtonClick(id) =>
    case ChatCommand(name, language, text) =>
    case OtherInteraction =>
  }

  /**
   * `InteractionCreate` as a whole: the handler, followed by the fallback
   * answer when it threw. The platform accepts every call made, and the user
   * gets exactly one answer for an interaction the bot handles and none for
   * any other.
   */
  function HandleInteraction(e: Event, cache: Cache, key: string, now: int, translation: Translation): (o: Outcome)
    ensures !o.threw
    ensures Run(FRESH, o.actions).Some?
    ensures Answers(o.actions) == (if IsAnswered(e) then 1 else 0)
  {
    var d := Dispatch(e, cache, key, now, translation);
    DispatchShape(e, cache, key, now, translation);
    if d.threw then
      var t := Run(FRESH, d.actions).value;
      FallbackAnswersOnce(d.actions, t);
      Outcome(d.actions + [Fallback(t)], d.request, d.cache, false)
    else
      d
  }

  // ---------------------------------------------------------------------------
  // End-to-end properties
  // ---------------------------------------------------------------------------

  /**
   * Picking a language on the picker of a cached message translates that
   * message into that language, answers `Translation (L):` with the text, and
   * consumes the entry: clicking any button of the same picker afterwards
   * gets the session-expired notice.
   */
  lemma PickThenClick(cache: Cache, content: string, key: string, now: int, i: nat, j: nat, text: string, later: Translation)
    requires content != "" && SEPARATOR !in key
    requires i < |LANGUAGES| && j < |LANGUAGES|
    ensures var picked := HandleInteraction(ContextMenu(Some(content)), cache, key, now, TranslationFailed);
            var rows := picked.actions[1].body.rows;
            var clicked := HandleInteraction(ButtonClick(Flatten(rows)[i].customId), picked.cache, "", now, Translated(text));
            var again := HandleInteraction(ButtonClick(Flatten(rows)[j].customId), clicked.cache, "", now, later);
            && clicked.request == Some(Request(content, LANGUAGES[i].value))
            && clicked.actions == [Defer, EditReply(Notice(SuccessText(LANGUAGES[i].value, text)))]
            && clicked.cache == Delete(cache, key)
            && again.request == None
            && again.actions == [Defer, EditReply(Notice(SESSION_EXPIRED))]
  {
    var picked := HandleInteraction(ContextMenu(Some(content)), cache, key, now, TranslationFailed);
    var rows := picked.actions[1].body.rows;
    LayoutUnique(rows, Buttons(LANGUAGES, key));
    PickerButtonsDecode(key);
    GetAfterPutAndDelete(cache, key, content, now);
  }

  /**
   * A failed translation leaves the entry in place, so the same button can be
   * tried again and succeed.
   */
  lemma RetryAfterFailure(cache: Cache, customId: string, text: string)
    requires Decode(customId).action == ACTION
    requires Decode(customId).key.Some? && Decode(customId).key.value in cache
    ensures var failed := HandleInteraction(ButtonClick(customId), cache, "", 0, TranslationFailed);
            && failed.actions == [Defer, EditReply(Notice(BUTTON_ERROR))]
            && failed.cache == cache
            && HandleInteraction(ButtonClick(customId), failed.cache, "", 0, Translated(text)).actions ==
               [Defer, EditReply(Notice(SuccessText(Decode(customId).lang.value, text)))]
  {
  }

  /**
   * A message cached at `t` and swept at a time more than five minutes later
   * can no longer be translated from its picker: the button gets the
   * session-expired notice and the translator is not called.
   */
  lemma ExpiredAfterSweep(cache: Cache, content: string, key: string, t: int, now: int, lang: string, translation: Translation)
    requires content != "" && SEPARATOR !in key && SEPARATOR !in lang
    requires now > t + MAX_AGE_MS
    ensures var picked := HandleInteraction(ContextMenu(Some(content)), cache, key, t, translation);
            var clicked := HandleInteraction(ButtonClick(Encode(lang, key)), Sweep(picked.cache, now), "", now, translation);
            clicked.request == None && clicked.actions == [Defer, EditReply(Notice(SESSION_EXPIRED))]
  {
    DecodeEncode(lang, key);
  }

  /** A slash `translate` whose translation fails is deferred and then answered once by the fallback's edit. */
  lemma ChatTranslateFailure(language: string, text: string, cache: Cache)
    ensures HandleInteraction(ChatCommand("translate", language, text), cache, "", 0, TranslationFailed).actions ==
            [Defer, EditReply(Notice(PROCESSING_ERROR))]
  {
  }
}
