/// Keyword search: the escaped keyword between two wildcards finds exactly the texts that contain
/// the keyword.

module Search {
  import opened Options

  const ESCAPE := '\\'

  /** The replacer puts a backslash before each backslash, percent sign and underscore. */
  function Escape(keyword: string): string {
    if keyword == "" then ""
    else
      var c := keyword[0];
      (if c == ESCAPE || c == '%' || c == '_' then [ESCAPE, c] else [c]) + Escape(keyword[1..])
  }

  function Pattern(keyword: string): string {
    "%" + Escape(keyword) + "%"
  }

  // ---------- LIKE with an escape character, section 8.5 of ISO/IEC 9075-2 ----------

  /** A part of a pattern: any text, any one character, or this character. */
  datatype Part = AnyText | AnyOne | This(c: char)

  /** The parts of a pattern; `None` when an escape character is not followed by a special one. */
  function Parts(p: string): Option<seq<Part>> {
    if p == "" then Some([])
    else if p[0] == ESCAPE then
      if |p| == 1 || (p[1] != ESCAPE && p[1] != '%' && p[1] != '_') then None
      else Before(This(p[1]), Parts(p[2..]))
    else Before(if p[0] == '%' then AnyText else if p[0] == '_' then AnyOne else This(p[0]), Parts(p[1..]))
  }

  function Before(part: Part, rest: Option<seq<Part>>): Option<seq<Part>> {
    if rest.None? then None else Some([part] + rest.value)
  }

  predicate PartMatches(part: Part, piece: string) {
    match part
    case AnyText => true
    case AnyOne => |piece| == 1
    case This(c) => piece == [c]
  }

  function Concat(pieces: seq<string>): string {
    if pieces == [] then "" else pieces[0] + Concat(pieces[1..])
  }

  /** One piece for each part, and every piece fits its part. */
  ghost predicate Fits(parts: seq<Part>, pieces: seq<string>) {
    |pieces| == |parts| && forall i: nat :: i < |parts| ==> PartMatches(parts[i], pieces[i])
  }

  lemma FitsCons(part: Part, parts: seq<Part>, piece: string, pieces: seq<string>)
    ensures Fits([part] + parts, [piece] + pieces) <==> PartMatches(part, piece) && Fits(parts, pieces)
    ensures Concat([piece] + pieces) == piece + Concat(pieces)
  {
    var ps, qs := [part] + parts, [piece] + pieces;
    assert qs[1..] == pieces;
    if Fits(ps, qs) {
      forall i: nat | i < |parts| ensures PartMatches(parts[i], pieces[i]) {
        assert PartMatches(ps[i + 1], qs[i + 1]);
      }
      assert PartMatches(ps[0], qs[0]);
    }
  }

  /** Some partition of the text fits the parts of the pattern. */
  ghost predicate Like(t: string, p: string) {
    Parts(p).Some? && exists pieces :: Fits(Parts(p).value, pieces) && Concat(pieces) == t
  }

  // ---------- the escaped keyword ----------

  function Literal(keyword: string): seq<Part> {
    if keyword == "" then [AnyText] else [This(keyword[0])] + Literal(keyword[1..])
  }

  /** Before a wildcard, an escaped keyword reads back as its own characters. */
  lemma {:induction false} PartsOfEscape(keyword: string)
    ensures Parts(Escape(keyword) + "%") == Some(Literal(keyword))
  {
    if keyword == "" {
      assert "%"[1..] == "" && [AnyText] + [] == [AnyText];
    } else {
      PartsOfEscape(keyword[1..]);
      var c, rest := keyword[0], Escape(keyword[1..]) + "%";
      if c == ESCAPE || c == '%' || c == '_' {
        PartsOfEscaped(c, rest);
        assert Escape(keyword) + "%" == [ESCAPE, c] + rest;
      } else {
        PartsOfPlain(c, rest);
        assert Escape(keyword) + "%" == [c] + rest;
      }
    }
  }

  lemma PartsOfEscaped(c: char, rest: string)
    requires c == ESCAPE || c == '%' || c == '_'
    ensures Parts([ESCAPE, c] + rest) == Before(This(c), Parts(rest))
  {
    assert ([ESCAPE, c] + rest)[2..] == rest;
  }

  lemma PartsOfPlain(c: char, rest: string)
    requires c != ESCAPE && c != '%' && c != '_'
    ensures Parts([c] + rest) == Before(This(c), Parts(rest))
  {
    assert ([c] + rest)[1..] == rest;
  }

  function Letters(keyword: string, after: string): seq<string> {
    if keyword == "" then [after] else [[keyword[0]]] + Letters(keyword[1..], after)
  }

  lemma {:induction false} LettersFit(keyword: string, after: string)
    ensures Fits(Literal(keyword), Letters(keyword, after)) && Concat(Letters(keyword, after)) == keyword + after
  {
    if keyword == "" {
      FitsCons(AnyText, [], after, []);
      assert [after] + [] == [after] && [AnyText] + [] == [AnyText];
    } else {
      LettersFit(keyword[1..], after);
      FitsCons(This(keyword[0]), Literal(keyword[1..]), [keyword[0]], Letters(keyword[1..], after));
      hide Fits, Concat;
      assert [keyword[0]] + (keyword[1..] + after) == keyword + after;
    }
  }

  lemma {:induction false} FittingPieces(keyword: string, pieces: seq<string>)
    requires Fits(Literal(keyword), pieces)
    ensures exists after :: Concat(pieces) == keyword + after
  {
    if keyword == "" {
      assert Concat(pieces) == "" + Concat(pieces);
    } else {
      var rest := pieces[1..];
      assert pieces == [pieces[0]] + rest;
      FitsCons(This(keyword[0]), Literal(keyword[1..]), pieces[0], rest);
      FittingPieces(keyword[1..], rest);
      hide Fits, Concat;
      var after :| Concat(rest) == keyword[1..] + after;
      assert Concat(pieces) == keyword + after;
    }
  }

  predicate ContainsAt(t: string, keyword: string, i: nat) {
    i + |keyword| <= |t| && t[i..i + |keyword|] == keyword
  }

  ghost predicate Contains(t: string, keyword: string) {
    exists i: nat :: ContainsAt(t, keyword, i)
  }

  lemma PartsOfPattern(keyword: string)
    ensures Parts(Pattern(keyword)) == Some([AnyText] + Literal(keyword))
  {
    PartsOfEscape(keyword);
    assert Pattern(keyword)[1..] == Escape(keyword) + "%";
  }

  lemma ContainedIsMatched(keyword: string, t: string, i: nat)
    requires ContainsAt(t, keyword, i)
    ensures Like(t, Pattern(keyword))
  {
    var before, after := t[..i], t[i + |keyword|..];
    var pieces := [before] + Letters(keyword, after);
    LettersFit(keyword, after);
    FitsCons(AnyText, Literal(keyword), before, Letters(keyword, after));
    PartsOfPattern(keyword);
    hide Fits, Concat, Literal, Letters, Parts, Pattern;
    assert before + (keyword + after) == t;
    assert Fits([AnyText] + Literal(keyword), pieces);
  }

  lemma MatchedIsContained(keyword: string, t: string)
    requires Like(t, Pattern(keyword))
    ensures Contains(t, keyword)
  {
    PartsOfPattern(keyword);
    hide Parts, Pattern, Literal;
    var pieces :| Fits([AnyText] + Literal(keyword), pieces) && Concat(pieces) == t;
    assert pieces == [pieces[0]] + pieces[1..];
    FitsCons(AnyText, Literal(keyword), pieces[0], pieces[1..]);
    FittingPieces(keyword, pieces[1..]);
    hide Fits, Concat;
    var after :| Concat(pieces[1..]) == keyword + after;
    assert t == pieces[0] + keyword + after;
    assert ContainsAt(t, keyword, |pieces[0]|);
  }

  /** A text matches the pattern built from a keyword exactly when it contains the keyword. */
  lemma PatternFindsKeyword(keyword: string, t: string)
    ensures Like(t, Pattern(keyword)) <==> Contains(t, keyword)
  {
    hide Like, Pattern;
    if i: nat :| ContainsAt(t, keyword, i) {
      ContainedIsMatched(keyword, t, i);
    }
    if Like(t, Pattern(keyword)) {
      MatchedIsContained(keyword, t);
    }
  }

  // ---------- what the escaping is for ----------

  predicate Plain(keyword: string) {
    forall i :: 0 <= i < |keyword| ==> keyword[i] != ESCAPE && keyword[i] != '%' && keyword[i] != '_'
  }

  lemma {:induction false} EscapeOfPlain(keyword: string)
    requires Plain(keyword)
    ensures Escape(keyword) == keyword
  {
    if keyword == "" {
    } else {
      EscapeOfPlain(keyword[1..]);
    }
  }

  function Piece(part: Part): string {
    match part
    case AnyText => ""
    case AnyOne => "x"
    case This(c) => [c]
  }

  /** Pieces that the parts match, and their text. */
  function Pieces(parts: seq<Part>): seq<string> {
    seq(|parts|, i requires 0 <= i < |parts| => Piece(parts[i]))
  }

  function Sample(parts: seq<Part>): string {
    Concat(Pieces(parts))
  }

  lemma SampleOfCons(part: Part, rest: seq<Part>)
    ensures Sample([part] + rest) == Piece(part) + Sample(rest)
  {
    assert Pieces([part] + rest)[1..] == Pieces(rest);
  }

  lemma {:induction false} SampleOfKeyword(keyword: string)
    requires Parts(keyword + "%").Some?
    ensures |Sample(Parts(keyword + "%").value)| <= |keyword|
    ensures Sample(Parts(keyword + "%").value) == keyword ==> Plain(keyword)
  {
    var p := keyword + "%";
    if keyword == "" {
      assert Parts("%") == Before(AnyText, Parts(""));
      SampleOfCons(AnyText, []);
    } else if keyword[0] == ESCAPE {
      SampleOfCons(This(p[1]), Parts(p[2..]).value);
      if |keyword| == 1 {
        assert p[2..] == "";
      } else {
        assert p[2..] == keyword[2..] + "%";
        SampleOfKeyword(keyword[2..]);
      }
    } else {
      assert p[1..] == keyword[1..] + "%";
      SampleOfKeyword(keyword[1..]);
      var part := if p[0] == '%' then AnyText else if p[0] == '_' then AnyOne else This(p[0]);
      var rest := Parts(p[1..]).value;
      SampleOfCons(part, rest);
      if Piece(part) + Sample(rest) == keyword {
        assert |Piece(part)| == 1;
        assert (Piece(part) + Sample(rest))[1..] == Sample(rest);
        assert keyword == [keyword[0]] + keyword[1..];
      }
    }
  }

  lemma ContainsLonger(t: string, keyword: string)
    ensures Contains(t, keyword) && |t| <= |keyword| ==> t == keyword
  {
    if i: nat :| ContainsAt(t, keyword, i) {
      if |t| <= |keyword| {
        assert t[i..i + |keyword|] == t;
      }
    }
  }

  /** Without the escaping, the pattern finds exactly the texts that contain the keyword if and
      only if the keyword has no special character. */
  lemma EscapingNeeded(keyword: string)
    ensures (forall t :: Like(t, "%" + keyword + "%") <==> Contains(t, keyword)) <==> Plain(keyword)
  {
    var p := "%" + keyword + "%";
    if Plain(keyword) {
      EscapeOfPlain(keyword);
      forall t ensures Like(t, p) <==> Contains(t, keyword) {
        PatternFindsKeyword(keyword, t);
      }
    } else if Parts(p).None? {
      assert ContainsAt(keyword, keyword, 0);
      assert Contains(keyword, keyword) && !Like(keyword, p);
    } else {
      assert p[1..] == keyword + "%";
      var parts := Parts(keyword + "%").value;
      var t := Sample(parts);
      assert Parts(p).value == [AnyText] + parts;
      SampleOfCons(AnyText, parts);
      assert Fits([AnyText] + parts, Pieces([AnyText] + parts));
      SampleOfKeyword(keyword);
      ContainsLonger(t, keyword);
      assert !Contains(t, keyword) && Like(t, p);
    }
  }
}
