/** Slug generation for blog post titles, and the string passes it is
    made of: ASCII lower-casing, trimming, dropping characters outside
    `[\w\s-]`, and collapsing runs of whitespace and of hyphens into a
    single hyphen. Whitespace is the set JavaScript's `\s` and `trim()`
    share. */
module Slug {

  /** JavaScript white space and line terminators. */
  predicate IsSpace(c: char) {
    || c == ' ' || ('\t' <= c <= '\r')
    || c == '\U{00A0}' || c == '\U{1680}' || ('\U{2000}' <= c <= '\U{200A}')
    || c == '\U{2028}' || c == '\U{2029}' || c == '\U{202F}' || c == '\U{205F}'
    || c == '\U{3000}' || c == '\U{FEFF}'
  }

  predicate IsUpper(c: char) { 'A' <= c <= 'Z' }

  predicate IsHyphen(c: char) { c == '-' }

  /** The regular-expression class `\w`. */
  predicate IsWord(c: char) { ('a' <= c <= 'z') || IsUpper(c) || ('0' <= c <= '9') || c == '_' }

  /** What `[^\w\s-]` leaves in place. */
  predicate Kept(c: char) { IsWord(c) || IsSpace(c) || IsHyphen(c) }

  /** The characters a slug is made of. */
  predicate SlugChar(c: char) { ('a' <= c <= 'z') || ('0' <= c <= '9') || c == '_' || c == '-' }

  function LowerChar(c: char): (d: char)
    ensures !IsUpper(d)
    ensures IsUpper(c) ==> d as int == c as int + 32
    ensures !IsUpper(c) ==> d == c
  {
    if IsUpper(c) then (c as int + 32) as char else c
  }

  /** `toLowerCase` on ASCII letters. */
  function Lower(s: string): (r: string)
    ensures |r| == |s|
    ensures forall i | 0 <= i < |r| :: r[i] == LowerChar(s[i])
  {
    seq(|s|, i requires 0 <= i < |s| => LowerChar(s[i]))
  }

  /** Lower-casing leaves a string without capitals unchanged. */
  lemma LowerIdentity(s: string)
    requires forall i | 0 <= i < |s| :: !IsUpper(s[i])
    ensures Lower(s) == s
  {
  }

  function TrimStart(s: string): (r: string)
    ensures |r| <= |s| && r == s[|s| - |r|..]
    ensures forall i | 0 <= i < |s| - |r| :: IsSpace(s[i])
    ensures |r| > 0 ==> !IsSpace(r[0])
  {
    if |s| > 0 && IsSpace(s[0]) then TrimStart(s[1..]) else s
  }

  function TrimEnd(s: string): (r: string)
    ensures |r| <= |s| && r == s[..|r|]
    ensures forall i | |r| <= i < |s| :: IsSpace(s[i])
    ensures |r| > 0 ==> !IsSpace(r[|r| - 1])
  {
    if |s| > 0 && IsSpace(s[|s| - 1]) then TrimEnd(s[..|s| - 1]) else s
  }

  /** `trim()`: a slice of the input with only white space cut off either
      end. */
  function Trim(s: string): (r: string)
    ensures |r| > 0 ==> !IsSpace(r[0]) && !IsSpace(r[|r| - 1])
    ensures forall i | 0 <= i < |r| :: r[i] in s
  {
    var t := TrimStart(s);
    assert forall i | 0 <= i < |t| :: t[i] == s[|s| - |t| + i];
    TrimEnd(t)
  }

  /** A string that neither starts nor ends with white space trims to itself. */
  lemma TrimIdentity(s: string)
    requires |s| > 0 ==> !IsSpace(s[0]) && !IsSpace(s[|s| - 1])
    ensures Trim(s) == s
  {
  }

  /** `replace(/[^\w\s-]/g, "")` */
  function KeepSlugChars(s: string): (r: string)
    ensures |r| <= |s|
    decreases |s|
  {
    if |s| == 0 then []
    else (if Kept(s[0]) then [s[0]] else []) + KeepSlugChars(s[1..])
  }

  /** Filtering keeps only characters of `[\w\s-]`, all taken from the
      input. */
  lemma {:induction false} KeepChars(s: string)
    ensures forall i | 0 <= i < |KeepSlugChars(s)| :: Kept(KeepSlugChars(s)[i]) && KeepSlugChars(s)[i] in s
    decreases |s|
  {
    if |s| > 0 {
      KeepChars(s[1..]);
      var rest := KeepSlugChars(s[1..]);
      assert forall c | c in s[1..] :: c in s;
      assert KeepSlugChars(s) == (if Kept(s[0]) then [s[0]] else []) + rest;
    }
  }

  /** Filtering a string that has nothing to drop changes nothing. */
  lemma {:induction false} KeepIdentity(s: string)
    requires forall i | 0 <= i < |s| :: Kept(s[i])
    ensures KeepSlugChars(s) == s
    decreases |s|
  {
    if |s| > 0 {
      KeepIdentity(s[1..]);
    }
  }

  /** The input with its leading run of `inRun` characters removed. */
  function DropRun(s: string, inRun: char -> bool): (r: string)
    ensures |r| <= |s| && r == s[|s| - |r|..]
    ensures |s| > 0 && inRun(s[0]) ==> |r| < |s|
    ensures |r| > 0 ==> !inRun(r[0])
    decreases |s|
  {
    if |s| > 0 && inRun(s[0]) then DropRun(s[1..], inRun) else s
  }

  /** Each maximal run of `inRun` characters replaced by one `rep`, as a
      global regular-expression replace of `x+` does. */
  function CollapseRuns(s: string, inRun: char -> bool, rep: char): (r: string)
    ensures |r| <= |s|
    decreases |s|
  {
    if |s| == 0 then []
    else if inRun(s[0]) then [rep] + CollapseRuns(DropRun(s, inRun), inRun, rep)
    else [s[0]] + CollapseRuns(s[1..], inRun, rep)
  }

  /** Collapsing keeps every character class `ok` the input satisfies,
      except that runs become `rep`: each output character is `rep` or an
      `ok` character outside the runs. */
  lemma {:induction false} CollapseChars(s: string, inRun: char -> bool, rep: char, ok: char -> bool)
    requires forall i | 0 <= i < |s| :: ok(s[i])
    ensures forall i | 0 <= i < |CollapseRuns(s, inRun, rep)| ::
      CollapseRuns(s, inRun, rep)[i] == rep || (!inRun(CollapseRuns(s, inRun, rep)[i]) && ok(CollapseRuns(s, inRun, rep)[i]))
    decreases |s|
  {
    if |s| > 0 {
      var rest := if inRun(s[0]) then DropRun(s, inRun) else s[1..];
      assert rest == s[|s| - |rest|..];
      assert forall j | 0 <= j < |rest| :: rest[j] == s[|s| - |rest| + j];
      CollapseChars(rest, inRun, rep, ok);
      var tail := CollapseRuns(rest, inRun, rep);
      var head := if inRun(s[0]) then rep else s[0];
      var r := CollapseRuns(s, inRun, rep);
      assert r == [head] + tail;
      forall i | 0 <= i < |r| ensures r[i] == rep || (!inRun(r[i]) && ok(r[i])) {
        if i > 0 {
          assert r[i] == tail[i - 1];
        }
      }
    }
  }

  /** When `rep` itself belongs to the runs, collapsing leaves no two run
      characters adjacent. */
  lemma {:induction false} CollapseNoAdjacent(s: string, inRun: char -> bool, rep: char)
    requires inRun(rep)
    ensures forall i | 0 <= i < |CollapseRuns(s, inRun, rep)| - 1 ::
      !(inRun(CollapseRuns(s, inRun, rep)[i]) && inRun(CollapseRuns(s, inRun, rep)[i + 1]))
    decreases |s|
  {
    if |s| > 0 {
      var rest := if inRun(s[0]) then DropRun(s, inRun) else s[1..];
      CollapseNoAdjacent(rest, inRun, rep);
      var tail := CollapseRuns(rest, inRun, rep);
      var head := if inRun(s[0]) then rep else s[0];
      var r := CollapseRuns(s, inRun, rep);
      assert r == [head] + tail;
      if inRun(s[0]) && |rest| > 0 {
        assert !inRun(rest[0]);
        assert tail == [rest[0]] + CollapseRuns(rest[1..], inRun, rep);
      }
      forall i | 0 <= i < |r| - 1 ensures !(inRun(r[i]) && inRun(r[i + 1])) {
        if i > 0 {
          assert r[i] == tail[i - 1] && r[i + 1] == tail[i];
        } else {
          assert r[0] == head && r[1] == tail[0];
        }
      }
    }
  }

  /** Every `inRun` character replaced by `rep`, one for one. */
  function ReplaceEach(s: string, inRun: char -> bool, rep: char): (r: string)
    ensures |r| == |s|
    ensures forall i | 0 <= i < |s| :: r[i] == (if inRun(s[i]) then rep else s[i])
  {
    seq(|s|, i requires 0 <= i < |s| => if inRun(s[i]) then rep else s[i])
  }

  /** Where no two run characters are adjacent, every run is a single
      character, so collapsing is replacing one for one. */
  lemma {:induction false} CollapseSingles(s: string, inRun: char -> bool, rep: char)
    requires forall i | 0 <= i < |s| - 1 :: !(inRun(s[i]) && inRun(s[i + 1]))
    ensures CollapseRuns(s, inRun, rep) == ReplaceEach(s, inRun, rep)
    decreases |s|
  {
    if |s| > 0 {
      var t := s[1..];
      assert forall i | 0 <= i < |t| :: t[i] == s[i + 1];
      CollapseSingles(t, inRun, rep);
      var tail := ReplaceEach(t, inRun, rep);
      if inRun(s[0]) {
        assert |t| > 0 ==> !inRun(t[0]);
        assert DropRun(t, inRun) == t;
        assert DropRun(s, inRun) == t;
        assert CollapseRuns(s, inRun, rep) == [rep] + tail;
      } else {
        assert CollapseRuns(s, inRun, rep) == [s[0]] + tail;
      }
      assert ReplaceEach(s, inRun, rep) == [ReplaceEach(s, inRun, rep)[0]] + tail;
    }
  }

  /** A string whose run characters are all single copies of `rep` is left
      unchanged. */
  lemma CollapseIdentity(s: string, inRun: char -> bool, rep: char)
    requires forall i | 0 <= i < |s| :: inRun(s[i]) ==> s[i] == rep
    requires forall i | 0 <= i < |s| - 1 :: !(inRun(s[i]) && inRun(s[i + 1]))
    ensures CollapseRuns(s, inRun, rep) == s
  {
    CollapseSingles(s, inRun, rep);
  }

  /** A string of characters outside `[\w\s-]` filters to nothing. */
  lemma {:induction false} KeepDropsAll(s: string)
    requires forall i | 0 <= i < |s| :: !Kept(s[i])
    ensures KeepSlugChars(s) == []
    decreases |s|
  {
    if |s| > 0 {
      KeepDropsAll(s[1..]);
    }
  }

  /** A string of white space alone trims to the empty string. */
  lemma TrimBlank(s: string)
    requires forall i | 0 <= i < |s| :: IsSpace(s[i])
    ensures Trim(s) == []
  {
  }

  /** Filtering works character by character. */
  lemma {:induction false} KeepConcat(a: string, b: string)
    ensures KeepSlugChars(a + b) == KeepSlugChars(a) + KeepSlugChars(b)
    decreases |a|
  {
    if |a| > 0 {
      var head := if Kept(a[0]) then [a[0]] else [];
      assert (a + b)[0] == a[0];
      assert (a + b)[1..] == a[1..] + b;
      assert KeepSlugChars(a + b) == head + KeepSlugChars(a[1..] + b);
      KeepConcat(a[1..], b);
    } else {
      assert a + b == b;
    }
  }

  /** A slug is made of `[a-z0-9_-]` only and never holds `--`. */
  predicate IsSlug(s: string) {
    && (forall i | 0 <= i < |s| :: SlugChar(s[i]))
    && (forall i | 0 <= i < |s| - 1 :: !(s[i] == '-' && s[i + 1] == '-'))
  }

  /** `generateSlug`: lower-case, trim, drop everything outside
      `[\w\s-]`, turn each run of white space into a hyphen, then squeeze
      runs of hyphens. Whatever the title, the result is a slug. */
  function MakeSlug(title: string): (r: string)
    ensures IsSlug(r)
  {
    var trimmed := Trim(Lower(title));
    TrimmedNoUpper(title);
    var cleaned := KeepSlugChars(trimmed);
    CleanedChars(trimmed);
    var spaced := CollapseRuns(cleaned, IsSpace, '-');
    SpacedChars(cleaned);
    HyphensCollapsed(spaced);
    CollapseRuns(spaced, IsHyphen, '-')
  }

  lemma TrimmedNoUpper(title: string)
    ensures forall i | 0 <= i < |Trim(Lower(title))| :: !IsUpper(Trim(Lower(title))[i])
  {
    var lowered := Lower(title);
    var trimmed := Trim(lowered);
    forall i | 0 <= i < |trimmed| ensures !IsUpper(trimmed[i]) {
      var j :| 0 <= j < |lowered| && lowered[j] == trimmed[i];
    }
  }

  lemma CleanedChars(s: string)
    requires forall i | 0 <= i < |s| :: !IsUpper(s[i])
    ensures forall i | 0 <= i < |KeepSlugChars(s)| :: !IsUpper(KeepSlugChars(s)[i]) && Kept(KeepSlugChars(s)[i])
  {
    var r := KeepSlugChars(s);
    KeepChars(s);
    forall i | 0 <= i < |r| ensures !IsUpper(r[i]) {
      var j :| 0 <= j < |s| && s[j] == r[i];
    }
  }

  lemma SpacedChars(s: string)
    requires forall i | 0 <= i < |s| :: !IsUpper(s[i]) && Kept(s[i])
    ensures forall i | 0 <= i < |CollapseRuns(s, IsSpace, '-')| :: SlugChar(CollapseRuns(s, IsSpace, '-')[i])
  {
    CollapseChars(s, IsSpace, '-', c => !IsUpper(c) && Kept(c));
  }

  lemma HyphensCollapsed(s: string)
    requires forall i | 0 <= i < |s| :: SlugChar(s[i])
    ensures IsSlug(CollapseRuns(s, IsHyphen, '-'))
  {
    CollapseChars(s, IsHyphen, '-', SlugChar);
    CollapseNoAdjacent(s, IsHyphen, '-');
  }

  /** Generating a slug from a slug returns it unchanged. */
  lemma SlugIdempotent(title: string)
    ensures MakeSlug(MakeSlug(title)) == MakeSlug(title)
  {
    SlugFixpoint(MakeSlug(title));
  }

  /** Every slug is its own slug. */
  lemma SlugFixpoint(s: string)
    requires IsSlug(s)
    ensures MakeSlug(s) == s
  {
    LowerIdentity(s);
    TrimIdentity(s);
    KeepIdentity(s);
    assert KeepSlugChars(Trim(Lower(s))) == s;
    forall i | 0 <= i < |s| ensures !IsSpace(s[i]) {
      SlugCharNotSpace(s[i]);
    }
    CollapseIdentity(s, IsSpace, '-');
    CollapseIdentity(s, IsHyphen, '-');
  }

  lemma SlugCharNotSpace(c: char)
    requires SlugChar(c)
    ensures !IsSpace(c) && !IsUpper(c) && Kept(c)
  {
  }

  /** The first title from the form's own tests. */
  lemma SlugOfPlainTitle(title: string)
    requires title == "My Awesome Blog Post"
    ensures MakeSlug(title) == "my-awesome-blog-post"
  {
    var lowered := "my awesome blog post";
    assert Lower(title) == lowered;
    PlainTitleShape(lowered);
    SpacedWords(title, lowered, "my-awesome-blog-post");
  }

  lemma PlainTitleShape(lowered: string)
    requires lowered == "my awesome blog post"
    ensures |lowered| > 0 && !IsSpace(lowered[0]) && !IsSpace(lowered[|lowered| - 1])
    ensures forall i | 0 <= i < |lowered| :: Kept(lowered[i]) && !IsHyphen(lowered[i])
    ensures forall i | 0 <= i < |lowered| - 1 :: !(IsSpace(lowered[i]) && IsSpace(lowered[i + 1]))
    ensures ReplaceEach(lowered, IsSpace, '-') == "my-awesome-blog-post"
  {
    PlainTitleKept(lowered);
    PlainTitleSpaces(lowered);
    PlainTitleHyphens(lowered, ReplaceEach(lowered, IsSpace, '-'));
  }

  lemma PlainTitleKept(lowered: string)
    requires lowered == "my awesome blog post"
    ensures forall i | 0 <= i < |lowered| :: Kept(lowered[i]) && !IsHyphen(lowered[i])
  {
  }

  lemma PlainTitleSpaces(lowered: string)
    requires lowered == "my awesome blog post"
    ensures forall i | 0 <= i < |lowered| - 1 :: !(IsSpace(lowered[i]) && IsSpace(lowered[i + 1]))
  {
  }

  lemma PlainTitleHyphens(lowered: string, r: string)
    requires lowered == "my awesome blog post"
    requires |r| == |lowered| && forall i | 0 <= i < |r| :: r[i] == (if IsSpace(lowered[i]) then '-' else lowered[i])
    ensures r == "my-awesome-blog-post"
  {
  }

  /** The second: punctuation is dropped before the spaces become hyphens. */
  lemma SlugOfPunctuatedTitle(title: string)
    requires title == "Hello, World! @2024"
    ensures MakeSlug(title) == "hello-world-2024"
  {
    var lowered := "hello, world! @2024";
    assert Lower(title) == lowered;
    TrimIdentity(lowered);
    PunctuationDropped(lowered);
    HyphenatedWords("hello world 2024");
  }

  lemma HyphenatedWords(cleaned: string)
    requires cleaned == "hello world 2024"
    ensures CollapseRuns(CollapseRuns(cleaned, IsSpace, '-'), IsHyphen, '-') == "hello-world-2024"
  {
    SingleSpaces(cleaned);
    CollapseSingles(cleaned, IsSpace, '-');
    var slug := "hello-world-2024";
    SingleHyphens(slug);
    CollapseIdentity(slug, IsHyphen, '-');
  }

  lemma SingleSpaces(cleaned: string)
    requires cleaned == "hello world 2024"
    ensures forall i | 0 <= i < |cleaned| - 1 :: !(IsSpace(cleaned[i]) && IsSpace(cleaned[i + 1]))
    ensures ReplaceEach(cleaned, IsSpace, '-') == "hello-world-2024"
  {
  }

  lemma SingleHyphens(slug: string)
    requires slug == "hello-world-2024"
    ensures forall i | 0 <= i < |slug| :: IsHyphen(slug[i]) ==> slug[i] == '-'
    ensures forall i | 0 <= i < |slug| - 1 :: !(IsHyphen(slug[i]) && IsHyphen(slug[i + 1]))
  {
  }

  lemma PunctuationDropped(lowered: string)
    requires lowered == "hello, world! @2024"
    ensures KeepSlugChars(lowered) == "hello world 2024"
  {
    HelloPieces(lowered);
    WordChunks("hello", "world", "2024");
    PunctuationChunks(", ", "! ", "@");
    KeepPieces("hello", ", ", "world", "! ", "@", "2024");
    WordsJoined(KeepSlugChars(lowered));
  }

  lemma HelloPieces(lowered: string)
    requires lowered == "hello, world! @2024"
    ensures lowered == "hello" + ", " + "world" + "! " + "@" + "2024"
  {
  }

  lemma WordsJoined(r: string)
    requires r == "hello" + " " + "world" + " " + "2024"
    ensures r == "hello world 2024"
  {
  }

  /** The words: word characters only, so kept whole. */
  lemma WordChunks(a: string, c: string, f: string)
    requires a == "hello" && c == "world" && f == "2024"
    ensures KeepSlugChars(a) == a && KeepSlugChars(c) == c && KeepSlugChars(f) == f
  {
    KeepIdentity(a);
    KeepIdentity(c);
    KeepIdentity(f);
  }

  /** The chunks between the words: punctuation goes, spaces stay. */
  lemma PunctuationChunks(b: string, d: string, e: string)
    requires b == ", " && d == "! " && e == "@"
    ensures KeepSlugChars(b) == " " && KeepSlugChars(d) == " " && KeepSlugChars(e) == ""
  {
  }

  /** Three words separated by chunks that filter to one space each, or
      to nothing, filter to the words separated by single spaces. */
  lemma KeepPieces(a: string, b: string, c: string, d: string, e: string, f: string)
    requires KeepSlugChars(a) == a && KeepSlugChars(c) == c && KeepSlugChars(f) == f
    requires KeepSlugChars(b) == " " && KeepSlugChars(d) == " " && KeepSlugChars(e) == ""
    ensures KeepSlugChars(a + b + c + d + e + f) == a + " " + c + " " + f
  {
    KeepConcat(a + b + c + d + e, f);
    KeepConcat(a + b + c + d, e);
    KeepConcat(a + b + c, d);
    KeepConcat(a + b, c);
    KeepConcat(a, b);
  }

  /** A title of words with single spaces and no punctuation becomes its
      lower-cased words joined by hyphens. */
  lemma SpacedWords(title: string, lowered: string, slug: string)
    requires Lower(title) == lowered && |lowered| > 0
    requires !IsSpace(lowered[0]) && !IsSpace(lowered[|lowered| - 1])
    requires forall i | 0 <= i < |lowered| :: Kept(lowered[i]) && !IsHyphen(lowered[i])
    requires forall i | 0 <= i < |lowered| - 1 :: !(IsSpace(lowered[i]) && IsSpace(lowered[i + 1]))
    requires slug == ReplaceEach(lowered, IsSpace, '-')
    ensures MakeSlug(title) == slug
  {
    TrimIdentity(lowered);
    KeepIdentity(lowered);
    CollapseSingles(lowered, IsSpace, '-');
    CollapseIdentity(slug, IsHyphen, '-');
  }
}
