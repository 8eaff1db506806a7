/** The whitelist / blacklist normaliser of the account constructor
    (`_parse_uid_input`): whatever the configuration holds becomes a list of
    integer UIDs, and nothing it holds makes the parser fail. */
module UidParse {
  import opened Wrappers
  import opened Text
  import opened Seqs

  /** One element of a list-valued input, as Python's `int()` sees it. */
  datatype Item = IntItem(n: int) | BoolItem(b: bool) | TextItem(text: string) | OtherItem

  /** The raw configuration value. `OtherInput` stands for any value of
      another type (a mapping, say), which `int()` rejects. */
  datatype UidInput =
    | NoInput
    | ListInput(items: seq<Item>)
    | TextInput(text: string)
    | IntInput(n: int)
    | BoolInput(b: bool)
    | OtherInput

  /** Python's `not uids`. */
  predicate IsFalsy(u: UidInput) {
    match u
    case NoInput => true
    case ListInput(items) => |items| == 0
    case TextInput(text) => |text| == 0
    case IntInput(n) => n == 0
    case BoolInput(b) => !b
    case OtherInput => false
  }

  /** The characters `strip("[]\"'")` removes around a string input. */
  const Brackets: set<char> := {'[', ']', '"', '\''}

  predicate HasDigit(s: string) {
    exists i :: 0 <= i < |s| && IsDigit(s[i])
  }

  /** Python's `int(text)`: surrounding whitespace, an optional sign, then
      one or more ASCII digits; anything else raises (`None`). Whatever it
      accepts holds a digit, so the regex fallback is only reached for text
      `int()` rejects. */
  function IntLiteral(s: string): (r: Option<int>)
    ensures r.Some? ==> HasDigit(s)
  {
    StripHasDigit(s, Whitespace);
    SignedDigits(Strip(s, Whitespace))
  }

  /** The text `int()` accepts once the whitespace is gone. */
  function SignedDigits(t: string): (r: Option<int>)
    ensures r.Some? ==> HasDigit(t)
  {
    if |t| >= 2 && (t[0] == '-' || t[0] == '+') && AllDigits(t[1..]) then
      assert IsDigit(t[1..][0]);
      var v: int := DigitsValue(t[1..]);
      Some(if t[0] == '-' then -v else v)
    else if |t| >= 1 && AllDigits(t) then
      assert IsDigit(t[0]);
      Some(DigitsValue(t))
    else
      None
  }

  /** A digit left after stripping was a digit of the original text. */
  lemma StripHasDigit(s: string, cs: set<char>)
    ensures HasDigit(Strip(s, cs)) ==> HasDigit(s)
  {
    var t := Strip(s, cs);
    if HasDigit(t) {
      var l := LStrip(s, cs);
      var i :| 0 <= i < |t| && IsDigit(t[i]);
      assert t[i] == l[i];
      var j := |s| - |l| + i;
      assert l[i] == s[j];
      assert 0 <= j < |s| && IsDigit(s[j]);
    }
  }

  /** Text with no whitespace at either end is read as it stands. */
  lemma IntLiteralUnpadded(s: string)
    requires |s| > 0 ==> s[0] !in Whitespace && s[|s| - 1] !in Whitespace
    ensures IntLiteral(s) == SignedDigits(s)
  {
    StripUntouched(s, Whitespace);
  }

  /** `int()` reads a bare run of digits as its value. */
  lemma IntLiteralDigits(d: string)
    requires |d| >= 1 && AllDigits(d)
    ensures IntLiteral(d) == Some(DigitsValue(d) as int)
  {
    assert IsDigit(d[0]) && IsDigit(d[|d| - 1]);
    IntLiteralUnpadded(d);
    assert !(d[0] == '-' || d[0] == '+');
  }

  /** `int()` reads a minus sign followed by digits as the negated value. */
  lemma IntLiteralMinus(s: string)
    requires |s| >= 2 && s[0] == '-' && AllDigits(s[1..])
    ensures IntLiteral(s) == Some(-(DigitsValue(s[1..]) as int))
  {
    assert IsDigit(s[1..][|s| - 2]);
    IntLiteralUnpadded(s);
  }

  /** Printing an integer and reading it back with `int()` is the identity. */
  lemma IntLiteralShowInt(i: int)
    ensures IntLiteral(ShowInt(i)) == Some(i)
  {
    if i < 0 {
      IntLiteralShowNegative(i);
    } else {
      IntLiteralShowNatural(i);
    }
  }

  lemma IntLiteralShowNegative(i: int)
    requires i < 0
    ensures IntLiteral(ShowInt(i)) == Some(i)
  {
    var n: nat := -i;
    var d := ShowNat(n);
    ShowNatRoundTrip(n);
    var s := "-" + d;
    assert ShowInt(i) == s;
    assert s[1..] == d;
    IntLiteralMinus(s);
  }

  lemma IntLiteralShowNatural(i: int)
    requires i >= 0
    ensures IntLiteral(ShowInt(i)) == Some(i)
  {
    var d := ShowNat(i);
    assert ShowInt(i) == d;
    IntLiteralDigits(d);
    ShowNatRoundTrip(i);
  }

  /** Where the first digit of `s` sits (`|s|` when there is none). */
  function DigitRunStart(s: string): (i: nat)
    ensures i <= |s|
    ensures forall k :: 0 <= k < i ==> !IsDigit(s[k])
    ensures i < |s| ==> IsDigit(s[i])
  {
    if |s| == 0 || IsDigit(s[0]) then 0 else 1 + DigitRunStart(s[1..])
  }

  /** Where the run of digits starting at `i` stops: the match of `\d+` is
      greedy, so the run is maximal. */
  function DigitRunEnd(s: string, i: nat): (j: nat)
    requires i <= |s|
    ensures i <= j <= |s|
    ensures AllDigits(s[i..j])
    ensures forall k :: i <= k < j ==> IsDigit(s[k])
    ensures j < |s| ==> !IsDigit(s[j])
    decreases |s| - i
  {
    if i < |s| && IsDigit(s[i]) then
      DigitRunEnd(s, i + 1)
    else i
  }

  /** `s[i..j]` is the leftmost run of digits in `s`, taken whole: no digit
      comes before `i`, and the run can be extended on neither side. */
  predicate FirstRun(s: string, i: int, j: int)
  {
    && 0 <= i < j <= |s|
    && (forall k :: 0 <= k < i ==> !IsDigit(s[k]))
    && AllDigits(s[i..j])
    && (j < |s| ==> !IsDigit(s[j]))
  }

  /** A leftmost maximal run of digits is the one the scan finds, so a text
      has at most one. */
  lemma FirstRunIsScan(s: string, i: int, j: int)
    requires FirstRun(s, i, j)
    ensures i == DigitRunStart(s) && j == DigitRunEnd(s, i)
  {
    assert s[i..j][0] == s[i];
    var e := DigitRunEnd(s, i);
  }

  /** `re.search(r"(\d+)", s)`: the value of the leftmost maximal run of digits. */
  function FirstDigitRun(s: string): (r: Option<nat>)
    ensures r.None? <==> !HasDigit(s)
    ensures r.Some? ==> exists i, j :: FirstRun(s, i, j) && r.value == DigitsValue(s[i..j])
  {
    var i := DigitRunStart(s);
    if i == |s| then None
    else
      var j := DigitRunEnd(s, i);
      assert IsDigit(s[i]) && i < j;
      assert FirstRun(s, i, j);
      Some(DigitsValue(s[i..j]))
  }

  /** One comma-separated part of a string input: `int(p)`, or failing that
      its first run of digits, or nothing. */
  function ParsePart(p: string): (r: Option<int>)
    ensures r.None? <==> !HasDigit(p)
    ensures IntLiteral(p).Some? ==> r == IntLiteral(p)
    ensures IntLiteral(p).None? ==> r == FirstDigitRun(p)
  {
    match IntLiteral(p)
    case Some(n) => Some(n)
    case None =>
      match FirstDigitRun(p)
      case Some(v) => Some(v)
      case None => None
  }

  /** `[p.strip() for p in pieces if p.strip()]`. */
  function CleanParts(pieces: seq<string>): (parts: seq<string>)
    ensures |parts| <= |pieces|
    ensures forall k :: 0 <= k < |parts| ==> |parts[k]| > 0
  {
    if |pieces| == 0 then []
    else
      var t := Strip(pieces[0], Whitespace);
      (if |t| == 0 then [] else [t]) + CleanParts(pieces[1..])
  }

  /** Every part that yields a number contributes it, in order. */
  function ParseParts(parts: seq<string>): (r: seq<int>)
    ensures |r| <= |parts|
  {
    if |parts| == 0 then []
    else
      (match ParsePart(parts[0]) case Some(n) => [n] case None => []) + ParseParts(parts[1..])
  }

  /** The comma-separated pieces of a string input, before cleaning. */
  function TextPieces(text: string): seq<string>
  {
    Split(Strip(Strip(text, Whitespace), Brackets), ',')
  }

  /** Every list element `int()` accepts contributes its value, in order. */
  function IntOf(x: Item): Option<int>
  {
    match x
    case IntItem(n) => Some(n)
    case BoolItem(b) => Some(if b then 1 else 0)
    case TextItem(text) => IntLiteral(text)
    case OtherItem => None
  }

  function ParseList(items: seq<Item>): (r: seq<int>)
    ensures |r| <= |items|
  {
    if |items| == 0 then []
    else
      (match IntOf(items[0]) case Some(n) => [n] case None => []) + ParseList(items[1..])
  }

  /** `_parse_uid_input`: total, empty on a falsy input, and never longer
      than the list it read or the comma-separated parts of the text. */
  function ParseUidInput(u: UidInput): (r: seq<int>)
    ensures IsFalsy(u) ==> r == []
    ensures u.ListInput? ==> |r| <= |u.items|
    ensures u.TextInput? ==> |r| <= |TextPieces(u.text)|
    ensures u.IntInput? || u.BoolInput? ==> |r| <= 1
    ensures u.IntInput? && u.n != 0 ==> r == [u.n]
    ensures u == BoolInput(true) ==> r == [1]
    ensures u.OtherInput? ==> r == []
  {
    if IsFalsy(u) then []
    else
      match u
      case ListInput(items) => ParseList(items)
      case TextInput(text) => ParseParts(CleanParts(TextPieces(text)))
      case IntInput(n) => [n]
      case BoolInput(b) => [1]
      case OtherInput => []
  }

  /** Parsing a list keeps its order: the result for `a + b` is the result
      for `a` followed by the result for `b`. */
  lemma {:induction false} ParseListAppend(a: seq<Item>, b: seq<Item>)
    ensures ParseList(a + b) == ParseList(a) + ParseList(b)
  {
    if |a| == 0 {
      assert a + b == b;
    } else {
      assert (a + b)[0] == a[0] && (a + b)[1..] == a[1..] + b;
      ParseListAppend(a[1..], b);
    }
  }

  /** Parsing comma parts keeps their order in the same way. */
  lemma {:induction false} ParsePartsAppend(a: seq<string>, b: seq<string>)
    ensures ParseParts(a + b) == ParseParts(a) + ParseParts(b)
  {
    if |a| == 0 {
      assert a + b == b;
    } else {
      var h := match ParsePart(a[0]) case Some(n) => [n] case None => [];
      assert (a + b)[0] == a[0] && (a + b)[1..] == a[1..] + b;
      assert ParseParts(a + b) == h + ParseParts(a[1..] + b);
      assert ParseParts(a) == h + ParseParts(a[1..]);
      ParsePartsAppend(a[1..], b);
      ConcatAssoc(h, ParseParts(a[1..]), ParseParts(b));
    }
  }

  function IntItems(uids: seq<int>): (items: seq<Item>)
    ensures |items| == |uids|
  {
    if |uids| == 0 then [] else [IntItem(uids[0])] + IntItems(uids[1..])
  }

  function Shown(uids: seq<int>): (texts: seq<string>)
    ensures |texts| == |uids|
  {
    seq(|uids|, k requires 0 <= k < |uids| => ShowInt(uids[k]))
  }

  function TextItems(texts: seq<string>): (items: seq<Item>)
    ensures |items| == |texts|
  {
    seq(|texts|, k requires 0 <= k < |texts| => TextItem(texts[k]))
  }

  /** A YAML list of integers comes back unchanged. */
  lemma {:induction false} IntListRoundTrip(uids: seq<int>)
    ensures ParseUidInput(ListInput(IntItems(uids))) == uids
  {
    if |uids| > 0 {
      IntListRoundTrip(uids[1..]);
      assert ParseList(IntItems(uids)) == [uids[0]] + ParseList(IntItems(uids[1..]));
      if |uids| > 1 {
        assert !IsFalsy(ListInput(IntItems(uids[1..])));
      }
      assert uids == [uids[0]] + uids[1..];
    }
  }

  /** A list of decimal strings (`['1', '2']`) comes back as the integers. */
  lemma TextListRoundTrip(uids: seq<int>)
    ensures ParseUidInput(ListInput(TextItems(Shown(uids)))) == uids
  {
    ParseListShown(uids);
  }

  /** Parsing printed integers as list items gives the integers back. */
  lemma ParseListShown(uids: seq<int>)
    ensures ParseList(TextItems(Shown(uids))) == uids
  {
    var items := TextItems(Shown(uids));
    forall k | 0 <= k < |uids|
      ensures IntOf(items[k]) == Some(uids[k])
    {
      IntLiteralShowInt(uids[k]);
    }
    ParseListItems(items, uids);
  }

  /** Items that each read as the matching integer parse to those integers. */
  lemma {:induction false} ParseListItems(items: seq<Item>, uids: seq<int>)
    requires |items| == |uids|
    requires forall k :: 0 <= k < |uids| ==> IntOf(items[k]) == Some(uids[k])
    ensures ParseList(items) == uids
  {
    if |uids| > 0 {
      ParseListItems(items[1..], uids[1..]);
      assert ParseList(items) == [uids[0]] + ParseList(items[1..]);
      assert uids == [uids[0]] + uids[1..];
    }
  }

  /** Parts that are already printed integers parse back to those integers. */
  lemma ParsePartsShown(uids: seq<int>)
    ensures ParseParts(Shown(uids)) == uids
  {
    var texts := Shown(uids);
    forall k | 0 <= k < |uids|
      ensures IntLiteral(texts[k]) == Some(uids[k])
    {
      IntLiteralShowInt(uids[k]);
    }
    ParsePartsTexts(texts, uids);
  }

  /** Parts that `int()` reads as `uids` parse to `uids`. */
  lemma {:induction false} ParsePartsTexts(texts: seq<string>, uids: seq<int>)
    requires |texts| == |uids|
    requires forall k :: 0 <= k < |uids| ==> IntLiteral(texts[k]) == Some(uids[k])
    ensures ParseParts(texts) == uids
  {
    if |uids| > 0 {
      assert ParsePart(texts[0]) == Some(uids[0]);
      ParsePartsTexts(texts[1..], uids[1..]);
      assert ParseParts(texts) == [uids[0]] + ParseParts(texts[1..]);
      assert uids == [uids[0]] + uids[1..];
    }
  }

  /** No printed integer starts or ends with whitespace, a bracket or a quote,
      and none holds a comma. */
  lemma ShownEnds(i: int)
    ensures var s := ShowInt(i);
      && s[0] !in Whitespace && s[0] !in Brackets && s[|s| - 1] !in Whitespace && s[|s| - 1] !in Brackets
      && ',' !in s
  {
    var s := ShowInt(i);
    assert s[0] == '-' || IsDigit(s[0]);
    if i < 0 {
      assert forall k :: 1 <= k < |s| ==> s[k] == ShowNat(-i)[k - 1];
    }
  }

  /** Cleaning printed integers leaves them as they are. */
  lemma CleanShown(uids: seq<int>)
    ensures CleanParts(Shown(uids)) == Shown(uids)
  {
    var texts := Shown(uids);
    forall k | 0 <= k < |uids|
      ensures Strip(texts[k], Whitespace) == texts[k] && |texts[k]| > 0
    {
      StripShown(uids[k]);
    }
    CleanPartsPointwise(texts, texts);
  }

  /** The comma-joined form users write (`"1,2,3"`) parses back to the list. */
  lemma CommaTextRoundTrip(uids: seq<int>)
    ensures ParseUidInput(TextInput(Join(Shown(uids), ','))) == uids
  {
    if |uids| > 0 {
      var texts := Shown(uids);
      var j := Join(texts, ',');
      ShownJoinPieces(uids);
      assert |j| > 0;
      assert ParseUidInput(TextInput(j)) == ParseParts(CleanParts(texts));
      CleanShown(uids);
      ParsePartsShown(uids);
    }
  }

  /** Splitting the comma-joined text yields the printed integers again. */
  lemma ShownJoinPieces(uids: seq<int>)
    requires |uids| > 0
    ensures |Join(Shown(uids), ',')| > 0
    ensures TextPieces(Join(Shown(uids), ',')) == Shown(uids)
  {
    var texts := Shown(uids);
    forall k | 0 <= k < |texts|
      ensures Tidy(texts[k])
    {
      ShownEnds(uids[k]);
    }
    JoinedPieces(texts);
  }

  /** A piece with no comma whose ends are neither whitespace nor brackets. */
  predicate Tidy(p: string)
  {
    && |p| > 0 && ',' !in p
    && p[0] !in Whitespace && p[0] !in Brackets
    && p[|p| - 1] !in Whitespace && p[|p| - 1] !in Brackets
  }

  /** Tidy pieces come back from their comma join as they were. */
  lemma JoinedPieces(texts: seq<string>)
    requires |texts| > 0
    requires forall k :: 0 <= k < |texts| ==> Tidy(texts[k])
    ensures |Join(texts, ',')| > 0
    ensures TextPieces(Join(texts, ',')) == texts
  {
    var j := Join(texts, ',');
    assert Tidy(texts[0]) && Tidy(texts[|texts| - 1]);
    JoinEnds(texts, ',');
    StripUntouched(j, Whitespace);
    StripUntouched(j, Brackets);
    SplitJoin(texts, ',');
  }


  /** The pieces of Python's `", ".join(map(str, uids))` between its commas:
      every number after the first keeps the blank that followed the comma. */
  function ReprPieces(uids: seq<int>): (pieces: seq<string>)
    ensures |pieces| == |uids|
  {
    seq(|uids|, k requires 0 <= k < |uids| => ReprPiece(uids, k))
  }

  /** The `k`-th piece: the first integer bare, every later one after the
      space that follows each comma. */
  function ReprPiece(uids: seq<int>, k: nat): string
    requires k < |uids|
  {
    if k == 0 then ShowInt(uids[k]) else " " + ShowInt(uids[k])
  }

  /** Python's `str(uids)` for a list of integers, e.g. `"[1, 2, 3]"`. */
  function Repr(uids: seq<int>): string
  {
    "[" + Join(ReprPieces(uids), ',') + "]"
  }

  /** Stripping a piece of the printed list leaves the printed integer. */
  lemma CleanReprPieces(uids: seq<int>)
    ensures CleanParts(ReprPieces(uids)) == Shown(uids)
  {
    var pieces := ReprPieces(uids);
    var texts := Shown(uids);
    forall k | 0 <= k < |uids| ensures Strip(pieces[k], Whitespace) == texts[k] && |texts[k]| > 0 {
      if k == 0 {
        StripShown(uids[k]);
      } else {
        StripSpaced(uids[k]);
      }
    }
    CleanPartsPointwise(pieces, texts);
  }

  lemma StripShown(i: int)
    ensures Strip(ShowInt(i), Whitespace) == ShowInt(i)
  {
    ShownEnds(i);
    StripUntouched(ShowInt(i), Whitespace);
  }

  lemma StripSpaced(i: int)
    ensures Strip(" " + ShowInt(i), Whitespace) == ShowInt(i)
  {
    var x := ShowInt(i);
    ShownEnds(i);
    assert (" " + x)[0] == ' ' && (" " + x)[1..] == x;
    assert LStrip(" " + x, Whitespace) == LStrip(x, Whitespace);
    assert LStrip(x, Whitespace) == x;
    assert RStrip(x, Whitespace) == x;
  }

  /** Cleaning pieces that each strip to a non-empty text keeps one text per piece. */
  lemma {:induction false} CleanPartsPointwise(pieces: seq<string>, texts: seq<string>)
    requires |pieces| == |texts|
    requires forall k :: 0 <= k < |pieces| ==> Strip(pieces[k], Whitespace) == texts[k] && |texts[k]| > 0
    ensures CleanParts(pieces) == texts
  {
    if |pieces| > 0 {
      CleanPartsPointwise(pieces[1..], texts[1..]);
      assert texts == [texts[0]] + texts[1..];
    }
  }

  /** Whatever `str()` prints for a list of integers parses back to that list. */
  lemma ReprRoundTrip(uids: seq<int>)
    ensures ParseUidInput(TextInput(Repr(uids))) == uids
  {
    if |uids| > 0 {
      ReprPiecesBack(uids);
      TextInputParts(Repr(uids));
    } else {
      ReprEmpty();
    }
  }

  /** The pieces of a printed non-empty list are its printed integers. */
  lemma ReprPiecesBack(uids: seq<int>)
    requires |uids| > 0
    ensures |Repr(uids)| > 0
    ensures ParseParts(CleanParts(TextPieces(Repr(uids)))) == uids
  {
    ReprUnwraps(uids);
    ReprPiecesSplit(uids);
    assert TextPieces(Repr(uids)) == ReprPieces(uids);
    CleanReprPieces(uids);
    ParsePartsShown(uids);
  }

  /** A non-empty text input is read through its comma-separated parts. */
  lemma TextInputParts(text: string)
    requires |text| > 0
    ensures ParseUidInput(TextInput(text)) == ParseParts(CleanParts(TextPieces(text)))
  {
  }

  /** `str([])` is `"[]"`, which reads back as the empty list. */
  lemma ReprEmpty()
    ensures ParseUidInput(TextInput(Repr([]))) == []
  {
    var text := Repr([]);
    assert text == "[" + "" + "]" by {
      assert ReprPieces([]) == [];
    }
    Unwrap("");
    assert TextPieces(text) == Split("", ',');
    assert Split("", ',') == [""];
    assert CleanParts([""]) == [] by {
      assert Strip("", Whitespace) == "";
    }
  }




  /** Stripping blanks, brackets and quotes off `str(uids)` leaves the join. */
  lemma ReprUnwraps(uids: seq<int>)
    ensures |Repr(uids)| > 0
    ensures Strip(Strip(Repr(uids), Whitespace), Brackets) == Join(ReprPieces(uids), ',')
  {
    var j := Join(ReprPieces(uids), ',');
    ReprCoreEnds(uids);
    Unwrap(j);
  }

  /** Stripping whitespace and then brackets off `"[" + core + "]"` gives
      back the core, when the core's own ends are not brackets. */
  lemma Unwrap(core: string)
    requires |core| > 0 ==> core[0] !in Brackets && core[|core| - 1] !in Brackets
    ensures Strip(Strip("[" + core + "]", Whitespace), Brackets) == core
  {
    var text := "[" + core + "]";
    assert text == ['['] + core + [']'];
    assert Strip(text, Whitespace) == text by {
      assert text[0] == '[' && text[|text| - 1] == ']';
      StripUntouched(text, Whitespace);
    }
    StripWrapped('[', core, ']', Brackets);
  }

  /** Inside the brackets of `str(uids)`, neither end is a bracket or quote. */
  lemma ReprCoreEnds(uids: seq<int>)
    ensures var j := Join(ReprPieces(uids), ',');
      |j| > 0 ==> j[0] !in Brackets && j[|j| - 1] !in Brackets
  {
    if |uids| > 0 {
      var pieces := ReprPieces(uids);
      forall k | 0 <= k < |pieces|
        ensures Framed(pieces[k], Brackets)
      {
        ReprPieceEnds(uids, k);
      }
      JoinEndsOutside(pieces, ',', Brackets);
    }
  }

  /** A non-empty text whose two ends lie outside `cs`. */
  predicate Framed(p: string, cs: set<char>)
  {
    |p| > 0 && p[0] !in cs && p[|p| - 1] !in cs
  }

  /** Each piece of a printed list is non-empty, ends in a digit and does
      not start with a bracket or a quote. */
  lemma ReprPieceEnds(uids: seq<int>, k: nat)
    requires k < |uids|
    ensures Framed(ReprPieces(uids)[k], Brackets)
  {
    var s := ShowInt(uids[k]);
    var p := ReprPieces(uids)[k];
    ShownEnds(uids[k]);
    if k > 0 {
      assert p == " " + s;
      assert p[|p| - 1] == s[|s| - 1];
    }
  }

  /** The ends of a joined text are the outer ends of its first and last parts. */
  lemma JoinEndsOutside(parts: seq<string>, sep: char, cs: set<char>)
    requires |parts| >= 1
    requires forall k :: 0 <= k < |parts| ==> Framed(parts[k], cs)
    ensures var j := Join(parts, sep); |j| > 0 && j[0] !in cs && j[|j| - 1] !in cs
  {
    assert Framed(parts[0], cs) && Framed(parts[|parts| - 1], cs);
    JoinEnds(parts, sep);
  }

  lemma ReprPiecesShape(uids: seq<int>)
    ensures forall k :: 0 <= k < |uids| ==> ',' !in ReprPieces(uids)[k] && |ReprPieces(uids)[k]| > 0
  {
    var pieces := ReprPieces(uids);
    forall k | 0 <= k < |uids| ensures ',' !in pieces[k] && |pieces[k]| > 0 {
      ShownEnds(uids[k]);
    }
  }

  lemma ReprPiecesSplit(uids: seq<int>)
    requires |uids| > 0
    ensures Split(Join(ReprPieces(uids), ','), ',') == ReprPieces(uids)
  {
    ReprPiecesShape(uids);
    SplitJoin(ReprPieces(uids), ',');
  }

  /** The first character of a join is that of the first piece, and its last
      character that of the last piece. */
  lemma {:induction false} JoinEnds(parts: seq<string>, sep: char)
    requires |parts| >= 1
    requires forall k :: 0 <= k < |parts| ==> |parts[k]| > 0
    ensures var j := Join(parts, sep);
      |j| > 0 && j[0] == parts[0][0] && j[|j| - 1] == parts[|parts| - 1][|parts[|parts| - 1]| - 1]
  {
    if |parts| > 1 {
      JoinEnds(parts[1..], sep);
    }
  }
}
