/**
 * The option values a caller may put in the request map, and the text the
 * query builder makes of each: `toString` of the value, or for a list the
 * `toString`s of its non-null items joined with `,` by a StringJoiner.
 */
module Values {
  import opened Wrappers
  import opened JavaText

  /** java.util.Date, a count of milliseconds since the epoch. */
  datatype Date = Date(millis: int)

  /** A non-null, non-list option value. */
  datatype Scalar = Text(s: string) | Integer(n: int) | Boolean(b: bool) | Timestamp(date: Date)

  /** An option value: a scalar, a list of nullable scalars, or null. */
  datatype Value = Prim(scalar: Scalar) | List(items: seq<Option<Scalar>>) | Null

  /** `toString` of a scalar; `dateText` stands for Date.toString. */
  function ScalarText(x: Scalar, dateText: Date -> string): (r: string)
    ensures x.Text? ==> r == x.s
    ensures x.Integer? ==> ParseInt(r) == Some(x.n)
    ensures x.Boolean? ==> BoolValue(r) == Some(x.b)
    ensures x.Timestamp? ==> r == dateText(x.date)
  {
    match x
    case Text(s) => s
    case Integer(n) => IntToStringRoundTrip(n); IntToString(n)
    case Boolean(b) => BoolToString(b)
    case Timestamp(d) => dateText(d)
  }

  /** The texts of the non-null items, in list order. */
  function PresentTexts(items: seq<Option<Scalar>>, dateText: Date -> string): (texts: seq<string>)
    ensures |texts| <= |items|
    ensures |texts| == 0 <==> forall i :: 0 <= i < |items| ==> items[i].None?
  {
    if items == [] then []
    else
      var last := items[|items| - 1];
      PresentTexts(items[..|items| - 1], dateText)
        + (if last.Some? then [ScalarText(last.value, dateText)] else [])
  }

  /** The comma-joined text of a list value. */
  function Joined(items: seq<Option<Scalar>>, dateText: Date -> string): string {
    JoinWith(',', PresentTexts(items, dateText))
  }

  /**
   * The StringJoiner loop over a list value: skips null items and adds the
   * `toString` of each other item.
   */
  method JoinItems(items: seq<Option<Scalar>>, dateText: Date -> string) returns (joined: string)
    ensures joined == Joined(items, dateText)
  {
    joined := "";
    var added := 0;
    var i := 0;
    while i < |items|
      invariant 0 <= i <= |items|
      invariant added == |PresentTexts(items[..i], dateText)|
      invariant joined == JoinWith(',', PresentTexts(items[..i], dateText))
    {
      assert items[..i + 1][..i] == items[..i];
      ghost var before := PresentTexts(items[..i], dateText);
      if items[i].Some? {
        var text := ScalarText(items[i].value, dateText);
        ghost var after := before + [text];
        assert PresentTexts(items[..i + 1], dateText) == after;
        assert after[..|after| - 1] == before;
        if added == 0 {
          joined := text;
        } else {
          joined := joined + "," + text;
        }
        added := added + 1;
      } else {
        assert PresentTexts(items[..i + 1], dateText) == before;
      }
      i := i + 1;
    }
    assert items[..i] == items;
  }

  /**
   * A joined list value splits back into the texts of its non-null items, as
   * long as there is at least one and none of them contains a comma.
   */
  lemma JoinedSplits(items: seq<Option<Scalar>>, dateText: Date -> string)
    requires exists i :: 0 <= i < |items| && items[i].Some?
    requires NoneContains(',', PresentTexts(items, dateText))
    ensures Split(',', Joined(items, dateText)) == PresentTexts(items, dateText)
  {
    SplitJoin(',', PresentTexts(items, dateText));
  }

  /** The text `buildUrl` encodes for a non-null value. */
  function ValueText(v: Value, dateText: Date -> string): (r: string)
    requires !v.Null?
    ensures v.Prim? ==> r == ScalarText(v.scalar, dateText)
    ensures v.List? ==> r == JoinWith(',', PresentTexts(v.items, dateText))
    ensures v.List? && (exists i :: 0 <= i < |v.items| && v.items[i].Some?)
                    && NoneContains(',', PresentTexts(v.items, dateText))
            ==> Split(',', r) == PresentTexts(v.items, dateText)
  {
    if v.List? then
      JoinedSplitsWhenPlain(v.items, dateText);
      Joined(v.items, dateText)
    else ScalarText(v.scalar, dateText)
  }

  lemma JoinedSplitsWhenPlain(items: seq<Option<Scalar>>, dateText: Date -> string)
    ensures (exists i :: 0 <= i < |items| && items[i].Some?)
            && NoneContains(',', PresentTexts(items, dateText))
            ==> Split(',', Joined(items, dateText)) == PresentTexts(items, dateText)
  {
    if (exists i :: 0 <= i < |items| && items[i].Some?) && NoneContains(',', PresentTexts(items, dateText)) {
      JoinedSplits(items, dateText);
    }
  }

  /** Numbers and booleans are sent as their `toString`; null list items are dropped. */
  lemma TextExamples(dateText: Date -> string)
    ensures ScalarText(Integer(10), dateText) == "10"
    ensures ScalarText(Integer(-7), dateText) == "-7"
    ensures ScalarText(Boolean(true), dateText) == "true"
    ensures Joined([Some(Text("a")), None, Some(Integer(3))], dateText) == "a,3"
  {
    assert NatToString(10) == NatToString(1) + [DigitChar(0)];
    var items := [Some(Text("a")), None, Some(Integer(3))];
    assert items[..2][..1] == [Some(Text("a"))];
    assert items[..2] == [Some(Text("a")), None];
    assert PresentTexts(items, dateText) == ["a", "3"];
    assert ["a", "3"][..1] == ["a"];
    assert JoinWith(',', ["a", "3"]) == "a" + [','] + "3";
  }

  /** Two present items are joined with one comma. */
  lemma TwoItemJoin(a: string, b: string, dateText: Date -> string)
    ensures Joined([Some(Text(a)), Some(Text(b))], dateText) == a + "," + b
  {
    var items := [Some(Text(a)), Some(Text(b))];
    assert items[..1] == [Some(Text(a))];
    assert PresentTexts(items, dateText) == [a, b];
    assert [a, b][..1] == [a];
    assert JoinWith(',', [a, b]) == JoinWith(',', [a]) + [','] + b;
  }
}
