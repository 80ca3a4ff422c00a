/** URL slugs of business names, and the loop that resolves collisions. */
module Slug {
  import opened Decimal

  // ----- slugify_name -----

  /** HEBREW_TO_LATIN; other characters are not translated. The contract lists alef to tav in order. */
  function Latin(c: char): (r: string)
    ensures '\U{05D0}' <= c <= '\U{05D8}' ==> r == ["a", "b", "g", "d", "h", "v", "z", "ch", "t"][c as int - 0x05D0]
    ensures '\U{05D9}' <= c <= '\U{05E1}' ==> r == ["y", "k", "k", "l", "m", "m", "n", "n", "s"][c as int - 0x05D9]
    ensures '\U{05E2}' <= c <= '\U{05EA}' ==> r == ["a", "p", "p", "tz", "tz", "k", "r", "sh", "t"][c as int - 0x05E2]
    ensures !('\U{05D0}' <= c <= '\U{05EA}') ==> r == ""
  {
    match c
    case '\U{05D0}' => "a" case '\U{05D1}' => "b" case '\U{05D2}' => "g" case '\U{05D3}' => "d" case '\U{05D4}' => "h"
    case '\U{05D5}' => "v" case '\U{05D6}' => "z" case '\U{05D7}' => "ch" case '\U{05D8}' => "t" case '\U{05D9}' => "y"
    case '\U{05DB}' => "k" case '\U{05DA}' => "k" case '\U{05DC}' => "l" case '\U{05DE}' => "m" case '\U{05DD}' => "m"
    case '\U{05E0}' => "n" case '\U{05DF}' => "n" case '\U{05E1}' => "s" case '\U{05E2}' => "a" case '\U{05E4}' => "p"
    case '\U{05E3}' => "p" case '\U{05E6}' => "tz" case '\U{05E5}' => "tz" case '\U{05E7}' => "k" case '\U{05E8}' => "r"
    case '\U{05E9}' => "sh" case '\U{05EA}' => "t"
    case _ => ""
  }

  /** a-z and 0-9. */
  predicate IsPlain(c: char) {
    'a' <= c <= 'z' || IsDigit(c)
  }

  /** What the first loop keeps of one lower-cased character; `alnum` stands for str.isalnum. */
  function Kept(c: char, alnum: char -> bool): string {
    if Latin(c) != "" then Latin(c)
    else if alnum(c) || c == ' ' || c == '-' || c == '_' then [c] else ""
  }

  function Transliterated(lowered: string, alnum: char -> bool): string {
    if lowered == "" then "" else Transliterated(lowered[..|lowered| - 1], alnum) + Kept(lowered[|lowered| - 1], alnum)
  }

  /** Every maximal run of characters other than a-z and 0-9 becomes one hyphen. */
  function Collapse(s: string): string {
    if s == "" then ""
    else
      var front, c := Collapse(s[..|s| - 1]), s[|s| - 1];
      if IsPlain(c) then front + [c]
      else if front != "" && front[|front| - 1] == '-' then front
      else front + ['-']
  }

  /** Without the hyphens at the front and at the end. */
  function StripFront(s: string): string {
    if s != "" && s[0] == '-' then StripFront(s[1..]) else s
  }

  function StripBack(s: string): string {
    if s != "" && s[|s| - 1] == '-' then StripBack(s[..|s| - 1]) else s
  }

  function Take(s: string, n: nat): string {
    if |s| <= n then s else s[..n]
  }

  /** `lowered` is the name in lower case, `hex` the random suffix for names that leave nothing. */
  method SlugifyName(lowered: string, alnum: char -> bool, hex: string) returns (slug: string)
    ensures slug == Slugify(lowered, alnum, hex)
  {
    var transliterated := "";
    for i := 0 to |lowered|
      invariant transliterated == Transliterated(lowered[..i], alnum)
    {
      assert lowered[..i + 1][..i] == lowered[..i];
      var c := lowered[i];
      if Latin(c) != "" {
        transliterated := transliterated + Latin(c);
      } else if alnum(c) || c == ' ' || c == '-' || c == '_' {
        transliterated := transliterated + [c];
      }
    }
    assert lowered[..|lowered|] == lowered;
    slug := StripBack(StripFront(Collapse(transliterated)));
    if slug == "" {
      slug := "biz-" + Take(hex, 6);
    }
    slug := Take(slug, 40);
  }

  function Slugify(lowered: string, alnum: char -> bool, hex: string): string {
    var slug := StripBack(StripFront(Collapse(Transliterated(lowered, alnum))));
    Take(if slug == "" then "biz-" + Take(hex, 6) else slug, 40)
  }

  // ----- What a slug looks like -----

  predicate SlugChars(s: string) {
    forall i :: 0 <= i < |s| ==> 'a' <= s[i] <= 'z' || '0' <= s[i] <= '9' || s[i] == '-'
  }

  predicate NoDoubleHyphen(s: string) {
    forall i :: 0 < i < |s| ==> s[i - 1] != '-' || s[i] != '-'
  }

  predicate GoodSlug(s: string) {
    SlugChars(s) && NoDoubleHyphen(s) && s != "" && s[0] != '-'
  }

  lemma {:induction false} CollapseShape(s: string)
    ensures SlugChars(Collapse(s)) && NoDoubleHyphen(Collapse(s))
  {
    if s != "" {
      CollapseShape(s[..|s| - 1]);
    }
  }

  lemma StripFrontShape(s: string)
    requires SlugChars(s) && NoDoubleHyphen(s)
    ensures SlugChars(StripFront(s)) && NoDoubleHyphen(StripFront(s))
    ensures StripFront(s) != "" ==> StripFront(s)[0] != '-'
  {
  }

  lemma {:induction false} StripBackShape(s: string)
    ensures |StripBack(s)| <= |s| && StripBack(s) == s[..|StripBack(s)|]
    ensures StripBack(s) != "" ==> StripBack(s)[|StripBack(s)| - 1] != '-'
    ensures s != "" && s[0] != '-' ==> StripBack(s) != ""
    ensures s != "" && s[|s| - 1] != '-' ==> StripBack(s) == s
  {
    if s != "" && s[|s| - 1] == '-' {
      StripBackShape(s[..|s| - 1]);
    }
  }

  /**
   Every slug uses a-z, 0-9 and single hyphens only, is not empty, does not start with a hyphen
   and has at most 40 characters.
   */
  lemma SlugifyShape(lowered: string, alnum: char -> bool, hex: string)
    requires |hex| >= 6 && forall i :: 0 <= i < 6 ==> IsPlain(hex[i])
    ensures GoodSlug(Slugify(lowered, alnum, hex)) && |Slugify(lowered, alnum, hex)| <= 40
    ensures Slugify(lowered, alnum, hex)[|Slugify(lowered, alnum, hex)| - 1] == '-'
            ==> |Slugify(lowered, alnum, hex)| == 40
  {
    var t := Transliterated(lowered, alnum);
    CollapseShape(t);
    StripFrontShape(Collapse(t));
    StripBackShape(StripFront(Collapse(t)));
    hide Transliterated, Collapse, StripFront, StripBack;
    var slug := StripBack(StripFront(Collapse(t)));
    if slug == "" {
      FallbackShape(hex);
    } else {
      TakeShape(slug, 40);
    }
  }

  lemma TakeShape(s: string, n: nat)
    requires GoodSlug(s) && n > 0
    ensures GoodSlug(Take(s, n)) && |Take(s, n)| <= n
  {
  }

  lemma FallbackShape(hex: string)
    requires |hex| >= 6 && forall i :: 0 <= i < 6 ==> IsPlain(hex[i])
    ensures var slug := Take("biz-" + Take(hex, 6), 40); GoodSlug(slug) && |slug| == 10 && slug[9] != '-'
  {
    var slug := "biz-" + hex[..6];
    assert slug[..4] == "biz-" && slug[4..] == hex[..6];
    assert slug[0] == 'b' && slug[1] == 'i' && slug[2] == 'z' && slug[3] == '-';
    assert forall i :: 4 <= i < 10 ==> slug[i] == hex[i - 4];
  }

  lemma {:induction false} CollapseFixed(s: string)
    requires SlugChars(s) && NoDoubleHyphen(s)
    ensures Collapse(s) == s
  {
    assert forall i :: 0 <= i < |s| ==> IsPlain(s[i]) || s[i] == '-';
    assert !IsPlain('-');
    hide IsPlain;
    if s != "" {
      var front, c := s[..|s| - 1], s[|s| - 1];
      CollapseFixed(front);
      assert s == front + [c];
      assert front != "" && c == '-' ==> front[|front| - 1] != '-';
    }
  }

  lemma KeptPlain(c: char, alnum: char -> bool)
    requires c == '-' || (IsPlain(c) && alnum(c))
    ensures Kept(c, alnum) == [c]
  {
    assert Latin(c) == "";
  }

  lemma {:induction false} TransliteratedFixed(s: string, alnum: char -> bool)
    requires forall i :: 0 <= i < |s| ==> Kept(s[i], alnum) == [s[i]]
    ensures Transliterated(s, alnum) == s
  {
    hide Kept;
    if s != "" {
      var front := s[..|s| - 1];
      assert forall i :: 0 <= i < |front| ==> front[i] == s[i];
      TransliteratedFixed(front, alnum);
      assert s == front + [s[|s| - 1]];
    }
  }

  lemma SlugKept(s: string, alnum: char -> bool)
    requires SlugChars(s) && forall c :: IsPlain(c) ==> alnum(c)
    ensures Transliterated(s, alnum) == s
  {
    forall i | 0 <= i < |s| ensures Kept(s[i], alnum) == [s[i]] {
      assert IsPlain(s[i]) || s[i] == '-';
      KeptPlain(s[i], alnum);
    }
    TransliteratedFixed(s, alnum);
  }

  /** Slugifying a slug again changes it exactly when it was cut off right after a hyphen. */
  lemma SlugifyAgain(s: string, alnum: char -> bool, hex: string)
    requires GoodSlug(s) && |s| <= 40
    requires forall c :: IsPlain(c) ==> alnum(c)
    ensures Slugify(s, alnum, hex) == s <==> s[|s| - 1] != '-'
  {
    SlugKept(s, alnum);
    CollapseFixed(s);
    StripBackShape(s);
    assert StripFront(s) == s;
    hide Transliterated, Collapse, StripFront, StripBack, SlugChars, NoDoubleHyphen;
  }

  // ----- What a slug says -----

  /** The maximal runs of a-z and 0-9. */
  function Words(s: string): seq<string> {
    if s == "" then []
    else
      var n := |s| - 1;
      var words, c := Words(s[..n]), s[n];
      if !IsPlain(c) then words
      else if n > 0 && IsPlain(s[n - 1]) && words != [] then Longer(words, c)
      else words + [[c]]
  }

  /** The last word with one more character. */
  function Longer(words: seq<string>, c: char): seq<string>
    requires words != []
  {
    words[..|words| - 1] + [words[|words| - 1] + [c]]
  }

  function Hyphenated(words: seq<string>): string {
    if words == [] then ""
    else if |words| == 1 then words[0]
    else Hyphenated(words[..|words| - 1]) + "-" + words[|words| - 1]
  }

  lemma HyphenatedPush(words: seq<string>, w: string)
    ensures Hyphenated(words + [w]) == if words == [] then w else Hyphenated(words) + "-" + w
  {
    assert (words + [w])[..|words|] == words;
  }

  lemma HyphenatedLonger(words: seq<string>, c: char)
    requires words != []
    ensures Hyphenated(Longer(words, c)) == Hyphenated(words) + [c]
  {
    var front, last := words[..|words| - 1], words[|words| - 1];
    assert words == front + [last];
    HyphenatedPush(front, last);
    HyphenatedPush(front, last + [c]);
    hide Hyphenated;
    assert Hyphenated(front) + "-" + (last + [c]) == Hyphenated(front) + "-" + last + [c];
  }

  /** The hyphen a collapsed text has before its first word. */
  function Lead(s: string): string {
    if s != "" && IsPlain(s[0]) then "" else "-"
  }

  /** The hyphen a collapsed text has after its last word. */
  function Trail(s: string): string {
    if s != "" && IsPlain(s[|s| - 1]) then "" else "-"
  }

  lemma {:induction false} NoWords(s: string)
    ensures Words(s) == [] <==> forall i :: 0 <= i < |s| ==> !IsPlain(s[i])
    ensures Words(s) == [] ==> Collapse(s) == if s == "" then "" else "-"
  {
    hide IsPlain;
    if s != "" {
      NoWords(s[..|s| - 1]);
      assert forall i :: 0 <= i < |s| - 1 ==> s[..|s| - 1][i] == s[i];
    }
  }

  /** What one more character does to a collapsed text. */
  lemma CollapsePush(s: string, c: char)
    ensures Collapse(s + [c])
            == Collapse(s) + if IsPlain(c) then [c] else if s != "" && !IsPlain(s[|s| - 1]) then "" else "-"
  {
    CollapseEnds(s);
    assert (s + [c])[..|s|] == s;
    assert Collapse(s + [c]) == if IsPlain(c) then Collapse(s) + [c]
                                else if Collapse(s) != "" && Collapse(s)[|Collapse(s)| - 1] == '-' then Collapse(s)
                                else Collapse(s) + ['-'];
    hide Collapse, IsPlain;
  }

  lemma CollapseEnds(s: string)
    ensures s == "" <==> Collapse(s) == ""
    ensures s != "" ==> (Collapse(s)[|Collapse(s)| - 1] == '-' <==> !IsPlain(s[|s| - 1]))
  {
  }

  lemma WordsPush(s: string, c: char)
    requires Words(s) != []
    ensures Words(s + [c]) == if !IsPlain(c) then Words(s)
                              else if s != "" && IsPlain(s[|s| - 1]) then Longer(Words(s), c)
                              else Words(s) + [[c]]
  {
    assert (s + [c])[..|s|] == s;
  }

  /** Collapsed, a text is its words with single hyphens between them, and a hyphen at an end without a word. */
  lemma {:induction false} CollapseIsWords(s: string)
    requires Words(s) != []
    ensures Collapse(s) == Lead(s) + Hyphenated(Words(s)) + Trail(s)
  {
    var front, c := s[..|s| - 1], s[|s| - 1];
    assert s == front + [c];
    NoWords(front);
    CollapsePush(front, c);
    HyphenatedPush(Words(front), [c]);
    if Words(front) == [] {
      assert IsPlain(c) && Words(s) == [[c]];
    } else {
      CollapseIsWords(front);
      WordsPush(front, c);
      HyphenatedLonger(Words(front), c);
      assert Lead(front) == Lead(s);
      hide Words, Collapse, Hyphenated, Lead, IsPlain, Longer;
      JoinedStep(Lead(s), Hyphenated(Words(front)), c);
    }
  }

  lemma JoinedStep(a: string, b: string, c: char)
    ensures a + b + "" + [c] == a + (b + [c]) + "" && a + b + "-" + [c] == a + (b + "-" + [c]) + ""
    ensures a + b + "-" + "" == a + b + "-" && a + b + "" + "-" == a + b + "-"
  {
  }

  predicate IsWord(w: string) {
    w != "" && forall i :: 0 <= i < |w| ==> 'a' <= w[i] <= 'z' || '0' <= w[i] <= '9'
  }

  lemma {:induction false} WordsAre(s: string)
    ensures forall i :: 0 <= i < |Words(s)| ==> IsWord(Words(s)[i])
  {
    if s != "" {
      WordsAre(s[..|s| - 1]);
    }
  }

  lemma {:induction false} HyphenatedEnds(words: seq<string>)
    requires words != [] && forall i :: 0 <= i < |words| ==> IsWord(words[i])
    ensures var h := Hyphenated(words); h != "" && h[0] != '-' && h[|h| - 1] != '-'
  {
    if |words| > 1 {
      HyphenatedEnds(words[..|words| - 1]);
    }
  }

  lemma StripFrontOne(s: string)
    requires s != "" ==> s[0] != '-'
    ensures StripFront(s) == s && StripFront("-" + s) == s
  {
    assert ("-" + s)[1..] == s;
  }

  lemma StripBackOne(s: string)
    requires s != "" ==> s[|s| - 1] != '-'
    ensures StripBack(s) == s && StripBack(s + "-") == s
  {
    assert (s + "-")[..|s|] == s;
  }

  /** Both ends lose their hyphen. */
  lemma StripEnds(lead: string, h: string, trail: string)
    requires lead in {"", "-"} && trail in {"", "-"} && h != "" && h[0] != '-' && h[|h| - 1] != '-'
    ensures StripBack(StripFront(lead + h + trail)) == h
  {
    assert lead + h + trail == lead + (h + trail) && h + "" == h && "" + (h + trail) == h + trail;
    StripFrontOne(h + trail);
    StripBackOne(h);
    hide StripFront, StripBack;
  }

  lemma StrippedIsWords(s: string)
    ensures StripBack(StripFront(Collapse(s))) == Hyphenated(Words(s))
    ensures Words(s) == [] <==> Hyphenated(Words(s)) == ""
  {
    NoWords(s);
    StripFrontOne("");
    StripBackOne("");
    assert "-" + "" == "-" && Hyphenated([]) == "";
    hide Collapse, StripFront, StripBack, Words;
    if Words(s) != [] {
      CollapseIsWords(s);
      WordsAre(s);
      HyphenatedEnds(Words(s));
      hide Hyphenated;
      StripEnds(Lead(s), Hyphenated(Words(s)), Trail(s));
    }
  }

  /**
   The slug of a name is its words, joined by hyphens and cut off after 40 characters; a name without
   a word gets six random digits.
   */
  lemma SlugIsWords(lowered: string, alnum: char -> bool, hex: string)
    requires |hex| >= 6
    ensures var words, slug := Words(Transliterated(lowered, alnum)), Slugify(lowered, alnum, hex);
            && (words == [] ==> slug == "biz-" + hex[..6])
            && (words != [] ==> slug <= Hyphenated(words) && (slug == Hyphenated(words) || |slug| == 40))
            && |slug| <= 40
  {
    StrippedIsWords(Transliterated(lowered, alnum));
    hide Transliterated, Words, Collapse, Hyphenated, StripFront, StripBack;
    assert |"biz-" + hex[..6]| == 10;
  }

  lemma {:induction false} TransliteratedConcat(a: string, b: string, alnum: char -> bool)
    ensures Transliterated(a + b, alnum) == Transliterated(a, alnum) + Transliterated(b, alnum)
    decreases |b|
  {
    hide Kept;
    if b == "" {
      assert a + b == a;
    } else {
      var b' := b[..|b| - 1];
      assert (a + b)[..|a + b| - 1] == a + b';
      TransliteratedConcat(a, b', alnum);
    }
  }

  /** A text with one character put in. */
  lemma TransliteratedWith(a: string, c: char, b: string, alnum: char -> bool)
    ensures Transliterated(a + [c] + b, alnum)
            == Transliterated(a, alnum) + Kept(c, alnum) + Transliterated(b, alnum)
  {
    TransliteratedConcat(a + [c], b, alnum);
    TransliteratedConcat(a, [c], alnum);
    assert [c][..0] == "";
    assert Transliterated([c], alnum) == Kept(c, alnum);
  }

  /** A Hebrew letter reads as its Latin spelling, wherever it stands. */
  lemma LetterReads(a: string, c: char, b: string, alnum: char -> bool, hex: string)
    requires '\U{05D0}' <= c <= '\U{05EA}' && forall d :: IsPlain(d) ==> alnum(d)
    ensures Slugify(a + [c] + b, alnum, hex) == Slugify(a + Latin(c) + b, alnum, hex)
  {
    TransliteratedWith(a, c, b, alnum);
    TransliteratedConcat(a + Latin(c), b, alnum);
    TransliteratedConcat(a, Latin(c), alnum);
    LatinIsPlain(c);
    SlugKept(Latin(c), alnum);
    hide Transliterated, Latin;
  }

  lemma LatinIsPlain(c: char)
    ensures SlugChars(Latin(c))
    ensures '\U{05D0}' <= c <= '\U{05EA}' ==> Latin(c) != ""
  {
  }

  lemma KeptOther(c: char, alnum: char -> bool)
    requires !('\U{05D0}' <= c <= '\U{05EA}')
    ensures Kept(c, alnum) == if alnum(c) || c == ' ' || c == '-' || c == '_' then [c] else ""
  {
    hide Latin;
  }

  /** Any other character that is not alphanumeric makes no difference. */
  lemma OtherDropped(a: string, c: char, b: string, alnum: char -> bool, hex: string)
    requires !('\U{05D0}' <= c <= '\U{05EA}') && !alnum(c) && c != ' ' && c != '-' && c != '_'
    ensures Slugify(a + [c] + b, alnum, hex) == Slugify(a + b, alnum, hex)
  {
    TransliteratedWith(a, c, b, alnum);
    TransliteratedConcat(a, b, alnum);
    assert Transliterated(a, alnum) + "" == Transliterated(a, alnum);
    KeptOther(c, alnum);
    hide Slugify, Transliterated, Kept;
    assert Transliterated(a + [c] + b, alnum) == Transliterated(a + b, alnum);
    SameSlug(a + [c] + b, a + b, alnum, hex);
  }

  lemma SameSlug(a: string, b: string, alnum: char -> bool, hex: string)
    requires Transliterated(a, alnum) == Transliterated(b, alnum)
    ensures Slugify(a, alnum, hex) == Slugify(b, alnum, hex)
  {
  }

  /** A space, a hyphen or an underscore separates words. */
  lemma SeparatorsSplit(a: string, c: char, b: string, alnum: char -> bool)
    requires c == ' ' || c == '-' || c == '_'
    ensures Words(Transliterated(a + [c] + b, alnum))
            == Words(Transliterated(a, alnum)) + Words(Transliterated(b, alnum))
  {
    var x, y := Transliterated(a, alnum), Transliterated(b, alnum);
    KeptOther(c, alnum);
    assert !IsPlain(c);
    hide *;
    TransliteratedWith(a, c, b, alnum);
    assert Transliterated(a + [c] + b, alnum) == x + [c] + y;
    WordsSeparated(x, c, y);
  }

  lemma {:induction false} WordsSeparated(x: string, c: char, y: string)
    requires !IsPlain(c)
    ensures Words(x + [c] + y) == Words(x) + Words(y)
    decreases |y|
  {
    if y == "" {
      assert (x + [c])[..|x|] == x && x + [c] + y == x + [c];
    } else {
      var y' := y[..|y| - 1];
      assert (x + [c] + y)[..|x + [c] + y| - 1] == x + [c] + y';
      WordsSeparated(x, c, y');
      NoWords(y');
    }
  }

  // ----- The collision loop -----

  /** The candidate with a counter. */
  function Numbered(base: string, counter: nat): string {
    Take(base, 35) + "-" + ToDecimal(counter)
  }

  lemma NumberedInjective(base: string, j: nat, k: nat)
    requires Numbered(base, j) == Numbered(base, k)
    ensures j == k
  {
    var n := |Take(base, 35)| + 1;
    assert Numbered(base, j)[n..] == ToDecimal(j);
    assert Numbered(base, k)[n..] == ToDecimal(k);
    DecimalInjective(j, k);
  }

  /** The candidates with counters from 2 up to but not including n. */
  function Tried(base: string, n: nat): set<string> {
    set k | 2 <= k < n :: Numbered(base, k)
  }

  lemma {:induction false} TriedCount(base: string, n: nat)
    requires n >= 2
    ensures |Tried(base, n)| == n - 2
  {
    hide Numbered;
    if n > 2 {
      TriedCount(base, n - 1);
      if Numbered(base, n - 1) in Tried(base, n - 1) {
        var k :| 2 <= k < n - 1 && Numbered(base, k) == Numbered(base, n - 1);
        NumberedInjective(base, k, n - 1);
      }
      assert Tried(base, n) == Tried(base, n - 1) + {Numbered(base, n - 1)};
    }
  }

  /**
   The first free candidate: the base itself, or the base cut to 35 characters with the smallest
   counter from 2 on that gives a free slug. At most one counter more is tried than slugs are taken.
   */
  method ResolveCollision(baseSlug: string, taken: set<string>) returns (candidate: string, counter: nat)
    ensures candidate !in taken
    ensures 2 <= counter <= |taken| + 3
    ensures counter == 2 ==> candidate == baseSlug
    ensures counter > 2 ==> baseSlug in taken && candidate == Numbered(baseSlug, counter - 1)
                            && forall k :: 2 <= k < counter - 1 ==> Numbered(baseSlug, k) in taken
  {
    hide Numbered;
    candidate := baseSlug;
    counter := 2;
    TriedCount(baseSlug, 2);
    while candidate in taken
      invariant 2 <= counter
      invariant candidate == if counter == 2 then baseSlug else Numbered(baseSlug, counter - 1)
      invariant counter > 2 ==> baseSlug in taken
      invariant forall k :: 2 <= k < counter - 1 ==> Numbered(baseSlug, k) in taken
      invariant counter <= |taken| + 3
      decreases |taken| + 3 - counter
    {
      TriedCount(baseSlug, counter);
      assert taken == Tried(baseSlug, counter) + (taken - Tried(baseSlug, counter));
      candidate := Numbered(baseSlug, counter);
      counter := counter + 1;
    }
  }

  /**
   A numbered candidate of a good slug keeps its alphabet and its first 35 characters, does not start
   with a hyphen, and fits into the 40 characters of a slug up to counter 9999.
   */
  lemma NumberedShape(base: string, counter: nat)
    requires GoodSlug(base)
    ensures SlugChars(Numbered(base, counter)) && Numbered(base, counter)[0] != '-'
    ensures (if |base| <= 35 then base else base[..35]) <= Numbered(base, counter)
    ensures counter < 10_000 ==> |Numbered(base, counter)| <= 40
  {
    hide ToDecimal;
    if counter < 10_000 {
      FewDigits(counter, 4);
    }
  }

  lemma {:induction false} FewDigits(n: nat, k: nat)
    requires 0 < k <= 4 && n < [1, 10, 100, 1000, 10_000][k]
    ensures |ToDecimal(n)| <= k
  {
    if n >= 10 {
      FewDigits(n / 10, k - 1);
    }
  }
}
