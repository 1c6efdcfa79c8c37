/** The comma-separated id-list reader used for ADMIN_IDS and PRIVATE_GROUP_ID:
    each comma-separated piece is stripped and kept when, after removing its
    leading '-' characters, it is a non-empty run of digits.

    As written, a kept piece is then converted with `int(piece)`, which raises
    for a piece with two or more leading '-' ("--5"). `ParseIdListAsWritten`
    models that; `ParseIdList` is the corrected reader, which keeps only pieces
    of the form `-?digits`. */
module IdList {
  import opened Text

  /** What one piece contributes: nothing, a number, or the `ValueError`
      that `int` raises on the stripped text. */
  datatype Piece = Skipped | Number(value: int) | Crash(text: string)

  /** The stripped piece with its leading '-' characters removed. */
  function Core(piece: string): string {
    LStripChar(Strip(piece), '-')
  }

  /** How many leading '-' the stripped piece has. */
  function Minus(piece: string): nat {
    LeadingChars(Strip(piece), '-')
  }

  /** One piece as the source treats it: kept when its core is a digit run;
      `int()` then reads one leading '-' as a sign and raises on two or more. */
  function ClassifyAsWritten(piece: string): Piece {
    var core := Core(piece);
    if !IsDigitStr(core) then Skipped
    else if Minus(piece) == 0 then Number(DigitsValue(core))
    else if Minus(piece) == 1 then Number(0 - DigitsValue(core))
    else Crash(Strip(piece))
  }

  /** The corrected filter: only `-?digits` pieces are kept, so nothing raises. */
  function Classify(piece: string): Piece {
    match ClassifyAsWritten(piece)
    case Crash(_) => Skipped
    case other => other
  }

  /** The as-written conversion raises exactly on a digit core behind two or
      more '-'; the corrected one never raises, keeps exactly the digit cores
      behind at most one '-' (negated behind one), and agrees with the source
      wherever the source does not raise. */
  lemma ClassifySpec(piece: string)
    ensures ClassifyAsWritten(piece).Crash? <==> IsDigitStr(Core(piece)) && Minus(piece) >= 2
    ensures !Classify(piece).Crash?
    ensures Classify(piece).Number? <==> IsDigitStr(Core(piece)) && Minus(piece) <= 1
    ensures Classify(piece).Number? ==>
      Classify(piece).value == if Minus(piece) == 0 then DigitsValue(Core(piece)) else 0 - DigitsValue(Core(piece))
    ensures !ClassifyAsWritten(piece).Crash? ==> ClassifyAsWritten(piece) == Classify(piece)
  {
  }

  function ClassifiedAsWritten(pieces: seq<string>): (ks: seq<Piece>)
    ensures |ks| == |pieces|
    ensures forall i :: 0 <= i < |pieces| ==> ks[i] == ClassifyAsWritten(pieces[i])
  {
    seq(|pieces|, i requires 0 <= i < |pieces| => ClassifyAsWritten(pieces[i]))
  }

  function Classified(pieces: seq<string>): (ks: seq<Piece>)
    ensures |ks| == |pieces|
    ensures forall i :: 0 <= i < |pieces| ==> ks[i] == Classify(pieces[i])
  {
    seq(|pieces|, i requires 0 <= i < |pieces| => Classify(pieces[i]))
  }

  datatype Parsed = Ids(ids: seq<int>) | ValueError(text: string)

  /** The as-written loop over classified pieces: the numbers in order, or
      the first error. */
  function FoldAsWritten(ks: seq<Piece>): Parsed {
    if ks == [] then Ids([])
    else
      match FoldAsWritten(ks[..|ks| - 1])
      case ValueError(t) => ValueError(t)
      case Ids(xs) =>
        match ks[|ks| - 1]
        case Skipped => Ids(xs)
        case Number(v) => Ids(xs + [v])
        case Crash(t) => ValueError(t)
  }

  /** The numbers among classified pieces, in order. */
  function Numbers(ks: seq<Piece>): seq<int> {
    if ks == [] then []
    else
      var xs := Numbers(ks[..|ks| - 1]);
      match ks[|ks| - 1]
      case Number(v) => xs + [v]
      case _ => xs
  }

  function ParseAsWritten(raw: string): Parsed {
    if Strip(raw) == [] then Ids([]) else FoldAsWritten(ClassifiedAsWritten(Split(raw, ',')))
  }

  function Parse(raw: string): seq<int> {
    if Strip(raw) == [] then [] else Numbers(Classified(Split(raw, ',')))
  }

  /** main.py:31-47 (and api/routes/admin.py:12-18, 208-214) exactly as written. */
  method ParseIdListAsWritten(raw: string) returns (r: Parsed)
    ensures r == ParseAsWritten(raw)
  {
    if Strip(raw) == [] {
      return Ids([]);
    }
    r := FoldPieces(ClassifiedAsWritten(Split(raw, ',')));
  }

  /** The as-written loop over the classified pieces: numbers are appended
      in order and the first raising piece ends the loop. */
  method FoldPieces(ks: seq<Piece>) returns (r: Parsed)
    ensures r == FoldAsWritten(ks)
  {
    var out: seq<int> := [];
    var i := 0;
    while i < |ks|
      invariant 0 <= i <= |ks|
      invariant FoldAsWritten(ks[..i]) == Ids(out)
    {
      assert ks[..i + 1][..i] == ks[..i];
      match ks[i] {
        case Skipped =>
        case Number(v) => out := out + [v];
        case Crash(t) =>
          ErrorSticks(ks, i + 1);
          return ValueError(t);
      }
      i := i + 1;
    }
    assert ks[..i] == ks;
    r := Ids(out);
  }

  /** Once a piece raises, the rest of the list is never read. */
  lemma {:induction false} ErrorSticks(ks: seq<Piece>, i: nat)
    requires i <= |ks|
    requires FoldAsWritten(ks[..i]).ValueError?
    ensures FoldAsWritten(ks) == FoldAsWritten(ks[..i])
  {
    if i < |ks| {
      var init := ks[..|ks| - 1];
      assert init[..i] == ks[..i];
      ErrorSticks(init, i);
    } else {
      assert ks[..i] == ks;
    }
  }

  /** The corrected reader: well-formed pieces only, never raises. */
  method ParseIdList(raw: string) returns (ids: seq<int>)
    ensures ids == Parse(raw)
  {
    ids := [];
    if Strip(raw) == [] {
      return;
    }
    ids := CollectNumbers(Classified(Split(raw, ',')));
  }

  /** The corrected loop over the classified pieces: the numbers, in order. */
  method CollectNumbers(ks: seq<Piece>) returns (ids: seq<int>)
    ensures ids == Numbers(ks)
  {
    ids := [];
    var i := 0;
    while i < |ks|
      invariant 0 <= i <= |ks|
      invariant Numbers(ks[..i]) == ids
    {
      assert ks[..i + 1][..i] == ks[..i];
      if ks[i].Number? {
        ids := ids + [ks[i].value];
      }
      i := i + 1;
    }
    assert ks[..i] == ks;
  }

  lemma DoubleMinusPiece()
    ensures Strip("--5") == "--5"
    ensures ClassifyAsWritten("--5") == Crash("--5")
    ensures Classify("--5") == Skipped
  {
    var raw := "--5";
    assert NoSpace(raw) by {
      assert raw[0] == '-' && raw[1] == '-' && raw[2] == '5';
    }
    StripNoSpace(raw);
    assert LeadingChars(raw, '-') == 2 by {
      assert raw[1..] == "-5";
      assert raw[1..][1..] == "5";
      assert LeadingChars("5", '-') == 0;
    }
    assert Core(raw) == "5" by {
      assert raw[2..] == "5";
    }
    assert IsDigitStr("5");
  }

  /** The input that shows the defect: "--5" passes the filter and `int` raises. */
  lemma DoubleMinusCrashes()
    ensures ParseAsWritten("--5") == ValueError("--5")
    ensures Parse("--5") == []
  {
    DoubleMinusPiece();
    SplitNoSep("--5", ',');
    OnePiece("--5");
    var ks: seq<Piece> := [Crash("--5")];
    assert ks[..0] == [];
    var cs: seq<Piece> := [Skipped];
    assert cs[..0] == [];
  }

  /** A text without commas is classified as one piece. */
  lemma OnePiece(p: string)
    ensures ClassifiedAsWritten([p]) == [ClassifyAsWritten(p)]
    ensures Classified([p]) == [Classify(p)]
  {
  }

  /** Where the as-written loop does not raise, it reads the numbers. */
  lemma {:induction false} FoldAgrees(ks: seq<Piece>)
    ensures FoldAsWritten(ks).Ids? ==> FoldAsWritten(ks).ids == Numbers(ks)
  {
    if ks != [] {
      FoldAgrees(ks[..|ks| - 1]);
    }
  }

  /** Dropping the raising pieces does not change the numbers read. */
  lemma {:induction false} NumbersIgnoreCrashes(pieces: seq<string>)
    ensures Numbers(ClassifiedAsWritten(pieces)) == Numbers(Classified(pieces))
  {
    if pieces != [] {
      var n := |pieces|;
      NumbersIgnoreCrashes(pieces[..n - 1]);
      assert ClassifiedAsWritten(pieces)[..n - 1] == ClassifiedAsWritten(pieces[..n - 1]);
      assert Classified(pieces)[..n - 1] == Classified(pieces[..n - 1]);
      ClassifySpec(pieces[n - 1]);
    }
  }

  /** Where the source does not raise, it reads the same ids as the corrected reader. */
  lemma ParseAgrees(raw: string)
    ensures ParseAsWritten(raw).Ids? ==> ParseAsWritten(raw).ids == Parse(raw)
  {
    if Strip(raw) != [] {
      FoldAgrees(ClassifiedAsWritten(Split(raw, ',')));
      NumbersIgnoreCrashes(Split(raw, ','));
    }
  }

  /** The text `str(id)` for every id, as the configuration would hold it. */
  function Render(ids: seq<int>): (r: seq<string>)
    ensures |r| == |ids|
    ensures forall i :: 0 <= i < |ids| ==> r[i] == IntToString(ids[i])
  {
    seq(|ids|, i requires 0 <= i < |ids| => IntToString(ids[i]))
  }

  /** Digits carry no whitespace and do not start with '-'. */
  lemma DigitsClean(d: string)
    requires AllDigits(d)
    ensures NoSpace(d)
    ensures d == [] || d[0] != '-'
  {
  }

  lemma SignedClean(d: string)
    requires AllDigits(d)
    ensures NoSpace("-" + d)
  {
    var s := "-" + d;
    forall i | 0 <= i < |s| ensures !IsSpace(s[i]) {
      if i > 0 {
        assert s[i] == d[i - 1];
        assert IsDigit(d[i - 1]);
      }
    }
  }

  lemma PlainDigits(d: string)
    requires IsDigitStr(d)
    ensures Core(d) == d && Minus(d) == 0
  {
    DigitsClean(d);
    StripNoSpace(d);
    assert Strip(d) == d;
    assert LStripChar(d, '-') == d;
  }

  lemma SignedDigits(d: string)
    requires IsDigitStr(d)
    ensures Core("-" + d) == d && Minus("-" + d) == 1
  {
    var s := "-" + d;
    SignedClean(d);
    DigitsClean(d);
    StripNoSpace(s);
    assert s[1..] == d;
    assert LeadingChars(d, '-') == 0;
    assert LeadingChars(s, '-') == 1;
  }

  /** A digit string reads as its value. */
  lemma ClassifyPlain(d: string)
    requires IsDigitStr(d)
    ensures Classify(d) == Number(DigitsValue(d))
  {
    PlainDigits(d);
    assert ClassifyAsWritten(d) == Number(DigitsValue(d));
  }

  /** A digit string behind one '-' reads as its value negated. */
  lemma ClassifySigned(d: string)
    requires IsDigitStr(d)
    ensures Classify("-" + d) == Number(0 - DigitsValue(d))
  {
    SignedDigits(d);
    assert ClassifyAsWritten("-" + d) == Number(0 - DigitsValue(d));
  }

  lemma ClassifyRendered(v: int)
    ensures Classify(IntToString(v)) == Number(v)
  {
    var n: nat := if v < 0 then -v else v;
    NatToStringValue(n);
    if v < 0 {
      ClassifySigned(NatToString(n));
    } else {
      ClassifyPlain(NatToString(n));
    }
  }

  /** Pieces that are all numbers read as those numbers. */
  lemma {:induction false} NumbersOfNumbers(ks: seq<Piece>, xs: seq<int>)
    requires |ks| == |xs|
    requires forall i :: 0 <= i < |ks| ==> ks[i] == Number(xs[i])
    ensures Numbers(ks) == xs
  {
    if ks != [] {
      var n := |ks|;
      NumbersOfNumbers(ks[..n - 1], xs[..n - 1]);
      assert xs[..n - 1] + [xs[n - 1]] == xs;
    }
  }

  lemma IdsOfRendered(ids: seq<int>)
    ensures Numbers(Classified(Render(ids))) == ids
  {
    var ks := Classified(Render(ids));
    forall i | 0 <= i < |ks|
      ensures ks[i] == Number(ids[i])
    {
      ClassifyRendered(ids[i]);
    }
    NumbersOfNumbers(ks, ids);
  }

  lemma JoinStartsWithFirst(parts: seq<string>, sep: string)
    requires |parts| >= 1
    ensures StartsWith(Join(parts, sep), parts[0])
  {
  }

  /** `str(v)` is non-empty, starts with a non-space and holds no comma. */
  lemma RenderedClean(v: int)
    ensures IntToString(v) != [] && !IsSpace(IntToString(v)[0])
    ensures ',' !in IntToString(v)
  {
    var n: nat := if v < 0 then -v else v;
    NatToStringValue(n);
    NatToStringNoSpace(n);
    assert IntToString(v) == if v < 0 then "-" + NatToString(n) else NatToString(n);
  }

  /** Text that starts with a non-space does not strip to "". */
  lemma NotBlank(s: string)
    requires s != [] && !IsSpace(s[0])
    ensures Strip(s) != []
  {
    StripEmpty(s);
  }

  /** Round trip: writing ids with `str` and commas and reading them back
      gives the same ids, in order. */
  lemma RenderedIdsRoundTrip(ids: seq<int>)
    ensures Parse(Join(Render(ids), ",")) == ids
  {
    if ids != [] {
      var parts := Render(ids);
      var raw := Join(parts, ",");
      forall i | 0 <= i < |parts|
        ensures ',' !in parts[i]
      {
        RenderedClean(ids[i]);
      }
      SplitOfJoin(parts, ',');
      IdsOfRendered(ids);
      JoinStartsWithFirst(parts, ",");
      RenderedClean(ids[0]);
      assert raw[0] == parts[0][0];
      NotBlank(raw);
    }
  }

  /** A list of pieces none of which raises is read without an error. */
  lemma {:induction false} FoldNoCrash(ks: seq<Piece>)
    requires forall i :: 0 <= i < |ks| ==> !ks[i].Crash?
    ensures FoldAsWritten(ks).Ids?
  {
    if ks != [] {
      var init := ks[..|ks| - 1];
      assert forall i :: 0 <= i < |init| ==> init[i] == ks[i];
      FoldNoCrash(init);
    }
  }

  /** `str(v)` never makes `int` raise. */
  lemma RenderedAsWritten(v: int)
    ensures ClassifyAsWritten(IntToString(v)) == Number(v)
  {
    ClassifyRendered(v);
  }

  /** The reader as written also reads rendered ids back, without raising. */
  lemma RenderedParsesAsWritten(ids: seq<int>)
    ensures ParseAsWritten(Join(Render(ids), ",")) == Ids(ids)
  {
    var raw := Join(Render(ids), ",");
    RenderedIdsRoundTrip(ids);
    if ids == [] {
      assert raw == "";
      StripEmpty(raw);
    } else {
      var parts := Render(ids);
      forall i | 0 <= i < |parts|
        ensures ',' !in parts[i]
      {
        RenderedClean(ids[i]);
      }
      SplitOfJoin(parts, ',');
      JoinStartsWithFirst(parts, ",");
      RenderedClean(ids[0]);
      assert raw[0] == parts[0][0];
      NotBlank(raw);
      var ks := ClassifiedAsWritten(parts);
      forall i | 0 <= i < |ks|
        ensures !ks[i].Crash?
      {
        RenderedAsWritten(ids[i]);
      }
      FoldNoCrash(ks);
      ParseAgrees(raw);
    }
  }
}
