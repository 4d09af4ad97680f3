/** The fixed list of target languages offered as slash-command choices and as picker buttons. */
module Languages {

  /** A selectable language: the label shown to the user and the target code sent to the translator. */
  datatype Language = Language(name: string, value: string)

  /** The eight languages, in display order. */
  const LANGUAGES: seq<Language> := [
    Language("\U{1F1EB}\U{1F1F7} French", "FR"),
    Language("\U{1F1EC}\U{1F1E7} English", "EN"),
    Language("\U{1F1E9}\U{1F1EA} German", "DE"),
    Language("\U{1F1EA}\U{1F1F8} Spanish", "ES"),
    Language("\U{1F1EE}\U{1F1F9} Italian", "IT"),
    Language("\U{1F1EF}\U{1F1F5} Japanese", "JA"),
    Language("\U{1F1E8}\U{1F1F3} Chinese", "ZH"),
    Language("\U{1F1F9}\U{1F1F7} Turkish", "TR")
  ]

  /** Every language code is two capital ASCII letters, so none holds the button-id separator `_`. */
  lemma CodesAreTwoCapitals()
    ensures |LANGUAGES| == 8
    ensures forall i :: 0 <= i < |LANGUAGES| ==>
              |LANGUAGES[i].value| == 2 && forall j :: 0 <= j < 2 ==> 'A' <= LANGUAGES[i].value[j] <= 'Z'
    ensures forall i :: 0 <= i < |LANGUAGES| ==> '_' !in LANGUAGES[i].value
  {
  }

  /** No two languages share a code, so a code identifies its button. */
  lemma CodesAreDistinct()
    ensures forall i, j :: 0 <= i < j < |LANGUAGES| ==> LANGUAGES[i].value != LANGUAGES[j].value
  {
  }
}
