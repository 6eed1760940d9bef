/// Decimal numerals, and URL slugs made from titles.

module Decimals {
  import opened Options

  predicate IsDigit(c: char) {
    '0' <= c <= '9'
  }

  /** The decimal numeral of `n`, without leading zeros. */
  function Decimal(n: nat): (s: string)
    ensures |s| > 0 && forall c :: c in s ==> IsDigit(c)
  {
    if n < 10 then [('0' as int + n) as char] else Decimal(n / 10) + Decimal(n % 10)
  }

  /** The value of a string of digits, if it is one. */
  function Parse(s: string): Option<nat> {
    if s == "" then None else ParseDigits(s)
  }

  function ParseDigits(s: string): Option<nat> {
    if s == "" then Some(0)
    else
      var last := s[|s| - 1];
      if !IsDigit(last) then None
      else
        match ParseDigits(s[..|s| - 1])
        case None => None
        case Some(v) => Some(10 * v + (last as int - '0' as int))
  }

  lemma {:induction false} DigitsOfDecimal(n: nat)
    ensures ParseDigits(Decimal(n)) == Some(n)
  {
    if n >= 10 {
      DigitsOfDecimal(n / 10);
      assert Decimal(n)[..|Decimal(n)| - 1] == Decimal(n / 10);
    } else {
      assert Decimal(n)[..0] == "";
    }
  }

  /** Printing and parsing back gives the number. */
  lemma ParseOfDecimal(n: nat)
    ensures Parse(Decimal(n)) == Some(n)
  {
    DigitsOfDecimal(n);
  }
}

module Slugs {
  import opened Options
  import opened Decimals

  // ---------- from a title to letters, digits and hyphens ----------

  const PINYIN_BLOCK: string := "的一是不了在人有我他这个们中来上大为和国地到以说时要就出会可也你对生能而子那得于着下自之年过发后作里用道行所然家种事成分现经动工学如地方从部同定比关高本性看又法意力员实长等"
  const PINYIN_TABLE: string :=
    "ddsblzryw" + "ztgmmzlsd" + "whgddyssy" + "jcckhkdds" + "snneznydz" + "xxgzggffh" +
    "lzyydgxrs" + "jzcbxggfy" + "ycsdsndxm" + "b"

  function IndexOf(s: string, c: char): (i: Option<nat>)
    ensures i.Some? ==> i.value < |s| && s[i.value] == c
  {
    if s == "" then None
    else if s[0] == c then Some(0)
    else
      match IndexOf(s[1..], c)
      case None => None
      case Some(i) => Some(i + 1)
  }

  predicate IsSlugLetter(c: char) {
    'a' <= c <= 'z' || '0' <= c <= '9'
  }

  /** The initial the table gives for a Chinese character. The code looks the character up by
      byte offset, and every character of the block takes three bytes. */
  function FirstPinyin(c: char): string {
    match IndexOf(PINYIN_BLOCK, c)
    case None => ""
    case Some(i) => if 3 * i >= |PINYIN_TABLE| then "" else [PINYIN_TABLE[3 * i]]
  }

  lemma TableIsLowerCase()
    ensures forall i :: 0 <= i < |PINYIN_TABLE| ==> 'a' <= PINYIN_TABLE[i] <= 'z'
  {
  }

  /** What one character of a title becomes. */
  function Letter(c: char): string {
    if IsSlugLetter(c) then [c]
    else if 'A' <= c <= 'Z' then [(c as int - 'A' as int + 'a' as int) as char]
    else if '\U{4E00}' <= c <= '\U{9FFF}' then FirstPinyin(c)
    else "-"
  }

  lemma LetterIs(c: char)
    ensures |Letter(c)| <= 1 && forall x :: x in Letter(c) ==> IsSlugLetter(x) || x == '-'
  {
    TableIsLowerCase();
  }

  function Convert(title: string): string {
    if title == "" then "" else Convert(title[..|title| - 1]) + Letter(title[|title| - 1])
  }

  // ---------- runs of hyphens ----------

  predicate HasDouble(s: string) {
    exists i :: 0 <= i < |s| - 1 && s[i] == '-' && s[i + 1] == '-'
  }

  /** One pass of replacing "--" by "-", left to right, without overlaps. */
  function Halve(s: string): (r: string)
    ensures |r| <= |s|
    ensures (r == "" <==> s == "") && (s != "" ==> (r[0] == '-' <==> s[0] == '-'))
  {
    if |s| >= 2 && s[0] == '-' && s[1] == '-' then "-" + Halve(s[2..])
    else if s == "" then ""
    else [s[0]] + Halve(s[1..])
  }

  /** Every maximal run of hyphens collapsed to one. */
  function Collapse(s: string): (r: string)
    ensures |r| <= |s| && (r == "" <==> s == "")
  {
    if s == "" then ""
    else if s[0] == '-' && |s| > 1 && s[1] == '-' then Collapse(s[1..])
    else [s[0]] + Collapse(s[1..])
  }

  /** A pass shortens a string that has a double hyphen, and changes no collapsed form. */
  lemma {:induction false} HalveCollapses(s: string)
    ensures Collapse(Halve(s)) == Collapse(s)
    ensures HasDouble(s) ==> |Halve(s)| < |s|
  {
    if |s| >= 2 && s[0] == '-' && s[1] == '-' {
      HalveCollapses(s[2..]);
      assert ("-" + Halve(s[2..]))[1..] == Halve(s[2..]);
      assert s[1..][1..] == s[2..];
    } else if s != "" {
      HalveCollapses(s[1..]);
      assert ([s[0]] + Halve(s[1..]))[1..] == Halve(s[1..]);
      if i :| 0 <= i < |s| - 1 && s[i] == '-' && s[i + 1] == '-' {
        assert s[1..][i - 1] == '-' && s[1..][i] == '-';
      }
    }
  }

  lemma {:induction false} CollapsedHasNoDouble(s: string)
    ensures !HasDouble(Collapse(s)) && (s != "" ==> Collapse(s)[0] == s[0])
    ensures forall c :: c in Collapse(s) ==> c in s
  {
    if s == "" {
    } else {
      CollapsedHasNoDouble(s[1..]);
      if !(s[0] == '-' && |s| > 1 && s[1] == '-') {
        var r := Collapse(s[1..]);
        assert forall i :: 0 <= i < |r| ==> ([s[0]] + r)[i + 1] == r[i];
      }
    }
  }

  /** Cutting a string keeps its characters and makes no double hyphen. */
  lemma PartHasNoDouble(s: string, i: nat, j: nat)
    requires i <= j <= |s| && !HasDouble(s)
    ensures !HasDouble(s[i..j]) && forall c :: c in s[i..j] ==> c in s
  {
    assert forall k :: i <= k < j - 1 ==> !(s[k] == '-' && s[k + 1] == '-');
    assert forall k :: 0 <= k < j - i ==> s[i..j][k] == s[i + k];
  }

  lemma {:induction false} NoDoubleIsCollapsed(s: string)
    requires !HasDouble(s)
    ensures Collapse(s) == s
  {
    if s == "" {
    } else {
      PartHasNoDouble(s, 1, |s|);
      assert s[1..|s|] == s[1..];
      NoDoubleIsCollapsed(s[1..]);
    }
  }

  /** The loop that replaces "--" by "-" until there is none: it ends, and collapses every run. */
  method CollapseHyphens(s: string) returns (r: string)
    ensures r == Collapse(s)
  {
    r := s;
    while HasDouble(r)
      invariant Collapse(r) == Collapse(s)
      decreases |r|
    {
      HalveCollapses(r);
      r := Halve(r);
    }
    NoDoubleIsCollapsed(r);
  }

  // ---------- generateSlug ----------

  function TrimLeft(s: string): string {
    if s != "" && s[0] == '-' then TrimLeft(s[1..]) else s
  }

  function TrimRight(s: string): string {
    if s != "" && s[|s| - 1] == '-' then TrimRight(s[..|s| - 1]) else s
  }

  /** The slug before the fallback for an empty one and the cut at 200 bytes. */
  function Body(title: string): string {
    TrimRight(TrimLeft(Collapse(Convert(title))))
  }

  function Generate(title: string): string {
    var s := Body(title);
    if s == "" then "article" else if |s| > 200 then s[..200] else s
  }

  method GenerateSlug(title: string) returns (slug: string)
    ensures slug == Generate(title)
  {
    var b := "";
    for i := 0 to |title|
      invariant b == Convert(title[..i])
    {
      assert title[..i + 1][..i] == title[..i];
      b := b + Letter(title[i]);
    }
    assert title[..|title|] == title;
    var s := CollapseHyphens(b);
    s := TrimRight(TrimLeft(s));
    if s == "" {
      return "article";
    }
    if |s| > 200 {
      s := s[..200];
    }
    return s;
  }

  /** Letters, digits and single hyphens, none of them at either end. */
  predicate Clean(s: string) {
    && s != "" && s[0] != '-' && s[|s| - 1] != '-'
    && !HasDouble(s)
    && forall c :: c in s ==> IsSlugLetter(c) || c == '-'
  }

  lemma {:induction false} ConvertIs(title: string)
    ensures |Convert(title)| <= |title|
    ensures forall c :: c in Convert(title) ==> IsSlugLetter(c) || c == '-'
  {
    if title == "" {
    } else {
      ConvertIs(title[..|title| - 1]);
      LetterIs(title[|title| - 1]);
    }
  }

  lemma {:induction false} TrimLeftIs(s: string) returns (i: nat)
    ensures i <= |s| && TrimLeft(s) == s[i..] && (i < |s| ==> s[i] != '-')
  {
    if s != "" && s[0] == '-' {
      i := TrimLeftIs(s[1..]);
      i := i + 1;
    } else {
      i := 0;
    }
  }

  lemma {:induction false} TrimRightIs(s: string) returns (j: nat)
    ensures j <= |s| && TrimRight(s) == s[..j] && (j > 0 ==> s[j - 1] != '-')
  {
    if s != "" && s[|s| - 1] == '-' {
      j := TrimRightIs(s[..|s| - 1]);
    } else {
      j := |s|;
    }
  }

  /** The body of a slug is no longer than its title, and clean unless it is empty. */
  lemma BodyIs(title: string)
    ensures |Body(title)| <= |title| && (Body(title) == "" || Clean(Body(title)))
  {
    ConvertIs(title);
    var s := Collapse(Convert(title));
    CollapsedHasNoDouble(Convert(title));
    var i := TrimLeftIs(s);
    PartHasNoDouble(s, i, |s|);
    var t := s[i..];
    var j := TrimRightIs(t);
    PartHasNoDouble(t, 0, j);
    assert t[..j] == t[0..j];
    assert j > 0 ==> t[..j][0] == s[i];
  }

  /** For every title of at most 200 characters, and so of at most 200 bytes, nothing is cut off
      and the slug is clean. */
  lemma ShortTitleGivesCleanSlug(title: string)
    requires |title| <= 200
    ensures Clean(Generate(title)) && |Generate(title)| <= 200
    ensures Body(title) != "" ==> Generate(title) == Body(title)
  {
    BodyIs(title);
    assert Clean("article") by { ArticleIsClean(); }
  }

  lemma ArticleIsClean()
    ensures Clean("article")
  {
  }

  lemma {:induction false} ConvertKeepsSlug(s: string)
    requires forall c :: c in s ==> IsSlugLetter(c) || c == '-'
    ensures Convert(s) == s
  {
    if s == "" {
    } else {
      var last := s[|s| - 1];
      ConvertKeepsSlug(s[..|s| - 1]);
      assert last in s;
      assert s == s[..|s| - 1] + [last];
    }
  }

  /** A clean slug of at most 200 characters is its own slug. */
  lemma CleanIsFixed(s: string)
    requires Clean(s) && |s| <= 200
    ensures Generate(s) == s
  {
    hide Convert, Collapse, HasDouble;
    ConvertKeepsSlug(s);
    NoDoubleIsCollapsed(s);
  }

  /** Generating a slug twice changes nothing, exactly when the first is not cut off right after a
      hyphen. */
  lemma GenerateTwice(title: string)
    ensures Generate(Generate(title)) == Generate(title) <==> !(|Body(title)| > 200 && Body(title)[199] == '-')
    ensures |title| <= 200 ==> Generate(Generate(title)) == Generate(title)
  {
    BodyIs(title);
    ArticleIsClean();
    var s := Generate(title);
    if |Body(title)| > 200 {
      PartHasNoDouble(Body(title), 0, 200);
      assert s[|s| - 1] == Body(title)[199];
    }
    if s[|s| - 1] != '-' {
      CleanIsFixed(s);
    } else {
      ShortTitleGivesCleanSlug(s);
    }
  }

  /** A title whose slug is cut right after a hyphen. */
  lemma CutSlugIsNotFixed()
    ensures var title := seq(199, _ => 'a') + "-b"; Generate(Generate(title)) != Generate(title)
  {
    var title := seq(199, _ => 'a') + "-b";
    assert Clean(title);
    ConvertKeepsSlug(title);
    NoDoubleIsCollapsed(title);
    assert Body(title) == title;
    GenerateTwice(title);
  }

  // ---------- what a slug says of its title ----------

  const ALPHABET := "abcdefghijklmnopqrstuvwxyz"

  /** What a title's character means in a slug: letters without case, digits, initials of Chinese
      characters as far as the table goes, and a separator for all others. */
  function Meaning(c: char): string {
    if '0' <= c <= '9' then [c]
    else if 'a' <= c <= 'z' then [ALPHABET[c as int - 97]]
    else if 'A' <= c <= 'Z' then [ALPHABET[c as int - 65]]
    else if 0x4E00 <= c as int <= 0x9FFF then Initial(PINYIN_BLOCK, c, 0)
    else "-"
  }

  /** The initials are in the table at the byte offsets of their characters. */
  function Initial(block: string, c: char, offset: nat): string {
    if block == "" then ""
    else if block[0] == c then (if offset < |PINYIN_TABLE| then [PINYIN_TABLE[offset]] else "")
    else Initial(block[1..], c, offset + 3)
  }

  function Meanings(title: string): string {
    if title == "" then "" else Meaning(title[0]) + Meanings(title[1..])
  }

  /** The letters and digits in their order, with one hyphen between two that are separated. */
  function Joined(s: string): string {
    if s == "" then ""
    else if s[0] == '-' then Joined(s[1..])
    else
      var rest := Joined(s[1..]);
      [s[0]] + (if |s| > 1 && s[1] == '-' && rest != "" then "-" else "") + rest
  }

  lemma {:induction false} InitialIs(block: string, c: char, offset: nat)
    ensures Initial(block, c, offset)
            == match IndexOf(block, c)
               case None => ""
               case Some(i) => if offset + 3 * i >= |PINYIN_TABLE| then "" else [PINYIN_TABLE[offset + 3 * i]]
  {
    hide PINYIN_TABLE;
    if block == "" || block[0] == c {
    } else {
      InitialIs(block[1..], c, offset + 3);
    }
  }

  lemma AlphabetIs(i: nat)
    requires i < 26
    ensures ALPHABET[i] == (97 + i) as char
  {}

  lemma MeaningIs(c: char)
    ensures Letter(c) == Meaning(c)
  {
    hide PINYIN_BLOCK, PINYIN_TABLE, ALPHABET, IndexOf, Initial;
    if 'a' <= c <= 'z' {
      AlphabetIs(c as int - 97);
    } else if 'A' <= c <= 'Z' {
      AlphabetIs(c as int - 65);
    } else {
      InitialIs(PINYIN_BLOCK, c, 0);
    }
  }

  lemma {:induction false} ConvertMore(a: string, b: string)
    ensures Convert(a + b) == Convert(a) + Convert(b)
    decreases |b|
  {
    hide Letter;
    if b == "" {
      assert a + b == a;
    } else {
      ConvertMore(a, b[..|b| - 1]);
      assert (a + b)[..|a + b| - 1] == a + b[..|b| - 1] && (a + b)[|a + b| - 1] == b[|b| - 1];
    }
  }

  lemma {:induction false} ConvertIsMeanings(title: string)
    ensures Convert(title) == Meanings(title)
  {
    hide Letter, Meaning;
    if title == "" {
    } else {
      MeaningIs(title[0]);
      ConvertMore(title[..1], title[1..]);
      assert title == title[..1] + title[1..] && title[..1] == [title[0]];
      assert Convert([title[0]]) == Convert([]) + Letter(title[0]) by { assert [title[0]][..0] == []; }
      ConvertIsMeanings(title[1..]);
    }
  }

  lemma {:induction false} TrimRightCons(c: char, s: string)
    ensures TrimRight([c] + s) == if TrimRight(s) == "" && c == '-' then "" else [c] + TrimRight(s)
    decreases |s|
  {
    if s == "" {
      assert [c] + s == [c] && [c][..0] == "";
    } else if s[|s| - 1] == '-' {
      assert ([c] + s)[..|s|] == [c] + s[..|s| - 1];
      TrimRightCons(c, s[..|s| - 1]);
    } else {
      assert ([c] + s)[|s|] == s[|s| - 1];
    }
  }

  function Trimmed(s: string): string {
    TrimRight(TrimLeft(Collapse(s)))
  }

  /** Collapsing and trimming leaves what is joined. */
  lemma {:induction false} TrimmedIsJoined(s: string)
    ensures Trimmed(s) == Joined(s)
  {
    if s == "" {
    } else {
      hide TrimRight, TrimLeft, Collapse, Joined, Trimmed;
      TrimmedIsJoined(s[1..]);
      if s[0] == '-' {
        TrimmedSkips(s);
        JoinedSkips(s);
      } else {
        TrimmedTakes(s);
        JoinedTakes(s);
      }
    }
  }

  lemma TrimmedSkips(s: string)
    requires s != "" && s[0] == '-'
    ensures Trimmed(s) == Trimmed(s[1..])
  {
    hide TrimRight;
    assert s[1..] == "" || s[1] != '-' ==> Collapse(s)[1..] == Collapse(s[1..]);
  }

  lemma TrimmedTakes(s: string)
    requires s != "" && s[0] != '-'
    ensures Trimmed(s)
            == [s[0]] + (if |s| > 1 && s[1] == '-' && Trimmed(s[1..]) != "" then "-" else "") + Trimmed(s[1..])
  {
    hide TrimRight, TrimLeft, Trimmed, Collapse;
    StartsWithLetter(s);
    TrimRightCons(s[0], Collapse(s[1..]));
    RestTrimmed(s[1..]);
  }

  lemma StartsWithLetter(s: string)
    requires s != "" && s[0] != '-'
    ensures Trimmed(s) == TrimRight([s[0]] + Collapse(s[1..]))
  {
    hide TrimRight;
    assert Collapse(s) == [s[0]] + Collapse(s[1..]);
  }

  lemma JoinedSkips(s: string)
    requires s != "" && s[0] == '-'
    ensures Joined(s) == Joined(s[1..])
  {}

  lemma JoinedTakes(s: string)
    requires s != "" && s[0] != '-'
    ensures Joined(s) == [s[0]] + (if |s| > 1 && s[1] == '-' && Joined(s[1..]) != "" then "-" else "") + Joined(s[1..])
  {}

  /** What follows a letter keeps the hyphen it begins with, if a letter comes after it. */
  lemma RestTrimmed(rest: string)
    ensures TrimRight(Collapse(rest))
            == (if rest != "" && rest[0] == '-' && Trimmed(rest) != "" then "-" else "") + Trimmed(rest)
  {
    CollapsedHasNoDouble(rest);
    var c := Collapse(rest);
    if rest != "" && rest[0] == '-' {
      assert c[0] == '-' && (|c| > 1 ==> c[1] != '-');
      assert TrimLeft(c) == c[1..];
      assert c == ['-'] + c[1..];
      TrimRightCons('-', c[1..]);
    } else {
      assert TrimLeft(c) == c;
    }
  }

  /** A slug is the letters and digits its title's characters mean, in their order, with one hyphen
      where others separate them; it is "article" if there are none, and cut after two hundred. */
  lemma SlugIs(title: string)
    ensures var joined := Joined(Meanings(title));
      Generate(title) == if joined == "" then "article" else if |joined| > 200 then joined[..200] else joined
  {
    ConvertIsMeanings(title);
    TrimmedIsJoined(Convert(title));
    hide Joined, Meanings, Convert, TrimRight, TrimLeft, Collapse;
  }
}
