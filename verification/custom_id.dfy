/**
 * The language buttons' `custom_id`: `translate_<code>_<key>` on the way
 * out, `split('_')` and destructuring of the first three parts on the way in.
 */
module CustomId {
  import opened Wrappers
  import opened JsString
  import Languages

  const ACTION: string := "translate"
  const SEPARATOR: char := '_'

  /** The three variables `[action, lang, messageKey]` destructured from the split id; missing parts are `undefined`. */
  datatype Fields = Fields(action: string, lang: Option<string>, key: Option<string>)

  /** `parts[i]` as JavaScript reads it: `undefined` past the end. */
  function Part(parts: seq<string>, i: nat): Option<string>
  {
    if i < |parts| then Some(parts[i]) else None
  }

  /** The id of the button that asks for `lang` on the cache entry `key`. */
  function Encode(lang: string, key: string): (id: string)
    ensures StartsWith(id, ACTION + [SEPARATOR])
    ensures |id| == |ACTION| + |lang| + |key| + 2
  {
    ACTION + [SEPARATOR] + lang + [SEPARATOR] + key
  }

  /**
   * Reads an id back: no field holds the separator, a key is present only
   * when a language is, and an id without any separator is all action.
   */
  function Decode(id: string): (f: Fields)
    ensures SEPARATOR !in f.action
    ensures f.lang.Some? ==> SEPARATOR !in f.lang.value
    ensures f.key.Some? ==> SEPARATOR !in f.key.value && f.lang.Some?
    ensures SEPARATOR !in id <==> f == Fields(id, None, None)
  {
    var parts := Split(id, SEPARATOR);
    Fields(parts[0], Part(parts, 1), Part(parts, 2))
  }

  /** An encoded id splits into the action, the code, and then the pieces of the key. */
  lemma SplitEncoded(lang: string, key: string)
    requires SEPARATOR !in lang
    ensures Split(Encode(lang, key), SEPARATOR) == [ACTION, lang] + Split(key, SEPARATOR)
  {
    var rest := lang + [SEPARATOR] + key;
    assert Encode(lang, key) == ACTION + [SEPARATOR] + rest;
    assert SEPARATOR !in ACTION;
    SplitAfterPiece(ACTION, SEPARATOR, rest);
    SplitAfterPiece(lang, SEPARATOR, key);
  }

  /**
   * The round trip the button path relies on: when neither the language code
   * nor the key holds `_`, decoding an encoded id gives back the action, the
   * code and the key.
   */
  lemma DecodeEncode(lang: string, key: string)
    requires SEPARATOR !in lang && SEPARATOR !in key
    ensures Decode(Encode(lang, key)) == Fields(ACTION, Some(lang), Some(key))
  {
    SplitEncoded(lang, key);
  }

  /** Under the same condition two different buttons never share an id. */
  lemma EncodeInjective(lang1: string, key1: string, lang2: string, key2: string)
    requires SEPARATOR !in lang1 && SEPARATOR !in key1
    requires SEPARATOR !in lang2 && SEPARATOR !in key2
    requires Encode(lang1, key1) == Encode(lang2, key2)
    ensures lang1 == lang2 && key1 == key2
  {
    DecodeEncode(lang1, key1);
    DecodeEncode(lang2, key2);
  }

  /** The round trip fails as soon as the key holds `_`: the decoded key is cut at the first one. */
  lemma KeyWithSeparatorIsCut(lang: string, key: string)
    requires SEPARATOR !in lang && SEPARATOR in key
    ensures Decode(Encode(lang, key)).key == Some(key[..IndexOf(key, SEPARATOR)])
    ensures Decode(Encode(lang, key)).key != Some(key)
  {
    var i := IndexOf(key, SEPARATOR);
    var head, tail := key[..i], key[i + 1..];
    assert key == head + [SEPARATOR] + tail;
    SplitEncoded(lang, key);
    SplitAfterPiece(head, SEPARATOR, tail);
  }

  /** Every language code of the picker survives the round trip with any key free of `_`. */
  lemma LanguageIdsRoundTrip(key: string)
    requires SEPARATOR !in key
    ensures forall i :: 0 <= i < |Languages.LANGUAGES| ==>
              Decode(Encode(Languages.LANGUAGES[i].value, key)) == Fields(ACTION, Some(Languages.LANGUAGES[i].value), Some(key))
  {
    Languages.CodesAreTwoCapitals();
    forall i | 0 <= i < |Languages.LANGUAGES|
      ensures Decode(Encode(Languages.LANGUAGES[i].value, key)) == Fields(ACTION, Some(Languages.LANGUAGES[i].value), Some(key))
    {
      DecodeEncode(Languages.LANGUAGES[i].value, key);
    }
  }
}
