/**
 * The language picker sent in answer to the context-menu action: one button
 * per language, in list order, packed into action rows of at most five
 * buttons with no empty row.
 */
module ButtonLayout {
  import opened Languages
  import opened CustomId
  import opened Wrappers

  /** A primary-style button (component type 2, style 1); `caption` is its label. */
  datatype Button = Button(customId: string, caption: string)

  /** An action row (component type 1). */
  datatype Row = Row(buttons: seq<Button>)

  const MAX_BUTTONS_PER_ROW: nat := 5

  /** The button for `lang` on the cache entry `key`. */
  function ButtonFor(lang: Language, key: string): Button
  {
    Button(Encode(lang.value, key), lang.name)
  }

  /** One button per language, in the order of `langs`. */
  function Buttons(langs: seq<Language>, key: string): (bs: seq<Button>)
    ensures |bs| == |langs|
    ensures forall i :: 0 <= i < |langs| ==> bs[i] == ButtonFor(langs[i], key)
  {
    seq(|langs|, i requires 0 <= i < |langs| => ButtonFor(langs[i], key))
  }

  /** All the rows' buttons, row after row. */
  function Flatten(rows: seq<Row>): seq<Button>
  {
    if |rows| == 0 then [] else rows[0].buttons + Flatten(rows[1..])
  }

  /**
   * `rows` lays out `bs`: reading the rows in order gives `bs`, no row is
   * empty or holds more than five buttons, and every row but the last is full.
   */
  predicate IsLayout(rows: seq<Row>, bs: seq<Button>)
  {
    && Flatten(rows) == bs
    && (forall i :: 0 <= i < |rows| ==> 1 <= |rows[i].buttons| <= MAX_BUTTONS_PER_ROW)
    && (forall i :: 0 <= i < |rows| - 1 ==> |rows[i].buttons| == MAX_BUTTONS_PER_ROW)
  }

  /** Reference layout: full rows of five taken from the front, then the remainder. */
  function Layout(bs: seq<Button>): (rows: seq<Row>)
    ensures IsLayout(rows, bs)
    decreases |bs|
  {
    if |bs| == 0 then []
    else if |bs| <= MAX_BUTTONS_PER_ROW then [Row(bs)]
    else
      var rest := Layout(bs[MAX_BUTTONS_PER_ROW..]);
      assert bs == bs[..MAX_BUTTONS_PER_ROW] + bs[MAX_BUTTONS_PER_ROW..];
      [Row(bs[..MAX_BUTTONS_PER_ROW])] + rest
  }

  lemma {:induction false} FlattenAppend(rows: seq<Row>, r: Row)
    ensures Flatten(rows + [r]) == Flatten(rows) + r.buttons
    decreases |rows|
  {
    if |rows| > 0 {
      assert (rows + [r])[1..] == rows[1..] + [r];
      FlattenAppend(rows[1..], r);
    }
  }

  /** There is only one layout of a button sequence: any `rows` with the layout properties is `Layout(bs)`. */
  lemma {:induction false} LayoutUnique(rows: seq<Row>, bs: seq<Button>)
    requires IsLayout(rows, bs)
    ensures rows == Layout(bs)
    decreases |rows|
  {
    if |rows| > 1 {
      var n := MAX_BUTTONS_PER_ROW;
      assert |rows[0].buttons| == n;
      assert bs == rows[0].buttons + Flatten(rows[1..]);
      assert bs[..n] == rows[0].buttons;
      assert bs[n..] == Flatten(rows[1..]);
      assert |Flatten(rows[1..])| >= 1 by {
        assert |rows[1].buttons| >= 1;
        assert Flatten(rows[1..]) == rows[1].buttons + Flatten(rows[2..]);
      }
      var tail := rows[1..];
      assert forall i :: 0 <= i < |tail| ==> tail[i] == rows[i + 1];
      LayoutUnique(tail, bs[n..]);
      assert rows == [rows[0]] + tail;
    } else if |rows| == 1 {
      assert Flatten(rows) == rows[0].buttons + Flatten(rows[1..]);
      assert rows[0].buttons == bs;
    }
  }

  /**
   * The picker-building loop: buttons go into the current row, a full row
   * of five is pushed before the next button is added, and the last row is
   * pushed only when it is not empty. It yields the layout of the language
   * buttons.
   */
  method BuildRows(langs: seq<Language>, key: string) returns (rows: seq<Row>)
    ensures IsLayout(rows, Buttons(langs, key))
    ensures rows == Layout(Buttons(langs, key))
  {
    ghost var bs := Buttons(langs, key);
    rows := [];
    var current: seq<Button> := [];
    var i := 0;
    while i < |langs|
      invariant 0 <= i <= |langs|
      invariant Flatten(rows) + current == bs[..i]
      invariant forall j :: 0 <= j < |rows| ==> |rows[j].buttons| == MAX_BUTTONS_PER_ROW
      invariant |current| <= MAX_BUTTONS_PER_ROW
      invariant i > 0 ==> |current| >= 1
    {
      if |current| == MAX_BUTTONS_PER_ROW {
        FlattenAppend(rows, Row(current));
        rows := rows + [Row(current)];
        current := [];
      }
      var button := Button(Encode(langs[i].value, key), langs[i].name);
      assert button == bs[i];
      assert bs[..i + 1] == bs[..i] + [button];
      current := current + [button];
      i := i + 1;
    }
    assert bs[..i] == bs;
    if |current| > 0 {
      FlattenAppend(rows, Row(current));
      rows := rows + [Row(current)];
    }
    LayoutUnique(rows, bs);
  }

  /** The eight languages give two rows, of five and three buttons. */
  lemma LanguageRows(key: string)
    ensures var rows := Layout(Buttons(LANGUAGES, key));
            |rows| == 2 && |rows[0].buttons| == 5 && |rows[1].buttons| == 3
  {
  }

  /**
   * Every button of the picker for a key free of `_` decodes to the
   * `translate` action, its own language code and that key.
   */
  lemma PickerButtonsDecode(key: string)
    requires SEPARATOR !in key
    ensures var bs := Flatten(Layout(Buttons(LANGUAGES, key)));
            |bs| == |LANGUAGES| &&
            forall i :: 0 <= i < |bs| ==>
              Decode(bs[i].customId) == Fields(ACTION, Some(LANGUAGES[i].value), Some(key))
  {
    LanguageIdsRoundTrip(key);
  }
}
