/**
 * The `!translate <code> <text>` text command: prefix test, argument
 * parsing, the usage hint, upper-casing of the code and the public reply.
 */
module LegacyCommand {
  import opened Wrappers
  import opened JsString
  import opened Translator

  const PREFIX: string := "!translate"
  const USAGE: string := "Usage: !translate [language_code] [text]\nExample: !translate FR Hello, how are you?"
  const LEGACY_ERROR: string := "\U{274C} Sorry, there was an error translating your message. Please check the language code and try again."

  /** How a message reads: not a command, a command missing its code or text, or a request. */
  datatype Command = NotCommand | Usage | Translate(lang: string, text: string)

  /** What the bot does with one message: the translation it asks for and the reply it posts. */
  datatype Response = Response(request: Option<Request>, reply: Option<string>)

  /**
   * The arguments after the prefix, already trimmed: split on single spaces,
   * the first piece is the code and the other pieces joined by single spaces
   * are the text; an empty code or text is a usage error.
   */
  function ParseArguments(r: string): (c: Command)
    ensures !c.NotCommand?
  {
    var args := Split(r, ' ');
    var lang := args[0];
    var text := Join(args[1..], ' ');
    if lang == "" || text == "" then Usage else Translate(lang, text)
  }

  /** The source's parse of a whole message: the prefix test, then the trimmed remainder. */
  function Parse(content: string): (c: Command)
    ensures c.NotCommand? <==> !StartsWith(content, PREFIX)
  {
    if !StartsWith(content, PREFIX) then NotCommand else ParseArguments(Trim(content[|PREFIX|..]))
  }

  /**
   * The parse in plain terms, for a remainder `r` that neither starts nor
   * ends with whitespace (as `trim` leaves it): when `r` has no space it is a
   * usage error; otherwise the code is `r` up to its first space and the text
   * is everything after that space, inner spacing included, and neither is
   * empty.
   */
  lemma {:induction false} ParseAtFirstSpace(r: string)
    requires r == [] || (!IsWhitespace(r[0]) && !IsWhitespace(r[|r| - 1]))
    ensures ' ' !in r ==> ParseArguments(r) == Usage
    ensures ' ' in r ==> ParseArguments(r) == Translate(r[..IndexOf(r, ' ')], r[IndexOf(r, ' ') + 1..])
    ensures ' ' in r ==> r[..IndexOf(r, ' ')] != "" && r[IndexOf(r, ' ') + 1..] != ""
  {
    if ' ' in r {
      var i := IndexOf(r, ' ');
      var head, tail := r[..i], r[i + 1..];
      assert r == head + [' '] + tail;
      SplitAfterPiece(head, ' ', tail);
      var args := Split(r, ' ');
      assert args == [head] + Split(tail, ' ');
      assert args[1..] == Split(tail, ' ');
      assert IsWhitespace(' ');
      assert i != 0 && i != |r| - 1;
    }
  }

  /** A message is a usage error exactly when its trimmed remainder after the prefix holds no space. */
  lemma UsageIffNoSpace(content: string)
    requires StartsWith(content, PREFIX)
    ensures Parse(content).Usage? <==> ' ' !in Trim(content[|PREFIX|..])
    ensures Parse(content).Translate? ==> Parse(content).lang != "" && Parse(content).text != "" && ' ' !in Parse(content).lang
  {
    ParseAtFirstSpace(Trim(content[|PREFIX|..]));
  }

  /** The public reply to a successful `!translate`: `Translation (L): ` and the text on the same line. */
  function LegacySuccessText(code: string, text: string): string
  {
    "Translation (" + code + "): " + text
  }

  /**
   * `MessageCreate`: messages from bots and messages without the prefix get
   * nothing; a usage error gets the usage hint and no translation; a request
   * is translated into the upper-cased code, and the reply carries the
   * upper-cased code and the result, or the fixed error text on failure.
   */
  function OnMessage(authorIsBot: bool, content: string, translation: Translation): (o: Response)
    ensures authorIsBot || !StartsWith(content, PREFIX) ==> o == Response(None, None)
    ensures !authorIsBot && Parse(content).Usage? ==> o == Response(None, Some(USAGE))
    ensures o.request.Some? <==> !authorIsBot && Parse(content).Translate?
    ensures o.request.Some? ==>
              && o.request.value == Request(Parse(content).text, ToUpper(Parse(content).lang))
              && (translation.Translated? ==> o.reply == Some(LegacySuccessText(o.request.value.target, translation.text)))
              && (translation.TranslationFailed? ==> o.reply == Some(LEGACY_ERROR))
  {
    if authorIsBot then Response(None, None)
    else
      match Parse(content)
      case NotCommand => Response(None, None)
      case Usage => Response(None, Some(USAGE))
      case Translate(lang, text) =>
        var code := ToUpper(lang);
        var reply := match translation
          case Translated(t) => LegacySuccessText(code, t)
          case TranslationFailed => LEGACY_ERROR;
        Response(Some(Request(text, code)), Some(reply))
  }

  /** The bot answers every non-bot `!translate` message exactly once, and never another message. */
  lemma RepliesOnce(authorIsBot: bool, content: string, translation: Translation)
    ensures OnMessage(authorIsBot, content, translation).reply.Some? <==> !authorIsBot && StartsWith(content, PREFIX)
  {
  }

  /** One space in front of a string without surrounding whitespace is all that `trim` removes. */
  lemma TrimOneSpace(r: string)
    requires r != [] && !IsWhitespace(r[0]) && !IsWhitespace(r[|r| - 1])
    ensures Trim([' '] + r) == r
  {
    var x := [' '] + r;
    assert x[1] == r[0] && x[|x| - 1] == r[|r| - 1];
    assert SkipWhitespace(x, 0) == 1;
    assert SkipWhitespaceBack(x, 1, |x|) == |x|;
    assert x[1..|x|] == r;
  }

  /**
   * A well-formed command line `!translate <code> <text>` (one space after
   * the prefix and after the code, a code without spaces, a text that does
   * not end in whitespace) parses back into that code and that text.
   */
  lemma ParseCommandLine(lang: string, text: string)
    requires lang != "" && ' ' !in lang && !IsWhitespace(lang[0])
    requires text != "" && !IsWhitespace(text[|text| - 1])
    ensures Parse(PREFIX + [' '] + lang + [' '] + text) == Translate(lang, text)
  {
    var r := lang + [' '] + text;
    var content := PREFIX + ([' '] + r);
    assert content == PREFIX + [' '] + lang + [' '] + text;
    assert content[..|PREFIX|] == PREFIX;
    assert content[|PREFIX|..] == [' '] + r;
    ArgumentsOfCommandLine(lang, text);
    TrimOneSpace(r);
  }

  lemma ArgumentsOfCommandLine(lang: string, text: string)
    requires lang != "" && ' ' !in lang && !IsWhitespace(lang[0])
    requires text != "" && !IsWhitespace(text[|text| - 1])
    ensures var r := lang + [' '] + text;
            r != [] && !IsWhitespace(r[0]) && !IsWhitespace(r[|r| - 1]) && ParseArguments(r) == Translate(lang, text)
  {
    var r := lang + [' '] + text;
    assert r[0] == lang[0] && r[|r| - 1] == text[|text| - 1];
    IndexOfAfterPiece(lang, ' ', text);
    ParseAtFirstSpace(r);
    assert r[..|lang|] == lang && r[|lang| + 1..] == text;
  }

  /** A bare `!translate` gets the usage hint and no translation. */
  lemma BareCommandGetsUsage(translation: Translation)
    ensures OnMessage(false, "!translate", translation) == Response(None, Some(USAGE))
  {
  }
}
