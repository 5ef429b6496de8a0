/** The escaping applied to text placed in the RSS feed: the five XML
    special characters replaced by their predefined entities, ampersand
    first. */
module XmlEscape {

  predicate Special(c: char) {
    c == '&' || c == '<' || c == '>' || c == '"' || c == '\''
  }

  /** Every occurrence of `c` replaced by `rep`, as a global regular
      expression replace of a single character does. */
  function ReplaceChar(s: string, c: char, rep: string): (r: string)
    ensures c !in s ==> r == s
    ensures |rep| >= 1 ==> |r| >= |s|
    decreases |s|
  {
    if |s| == 0 then []
    else (if s[0] == c then rep else [s[0]]) + ReplaceChar(s[1..], c, rep)
  }

  /** Replacing works character by character. */
  lemma {:induction false} ReplaceConcat(a: string, b: string, c: char, rep: string)
    ensures ReplaceChar(a + b, c, rep) == ReplaceChar(a, c, rep) + ReplaceChar(b, c, rep)
    decreases |a|
  {
    if |a| > 0 {
      assert (a + b)[0] == a[0];
      assert (a + b)[1..] == a[1..] + b;
      ReplaceConcat(a[1..], b, c, rep);
    } else {
      assert a + b == b;
    }
  }

  /** `escapeXml`: five replacements in the source's order. */
  function Escape(s: string): (r: string)
    ensures |r| >= |s|
  {
    var amp := ReplaceChar(s, '&', "&amp;");
    var lt := ReplaceChar(amp, '<', "&lt;");
    var gt := ReplaceChar(lt, '>', "&gt;");
    var quot := ReplaceChar(gt, '"', "&quot;");
    ReplaceChar(quot, '\'', "&apos;")
  }

  /** The entity of one character; other characters stand for themselves. */
  function Entity(c: char): (e: string)
    ensures Special(c) <==> |e| > 1
    ensures Special(c) ==> e[0] == '&'
    ensures !Special(c) ==> e == [c]
  {
    if c == '&' then "&amp;"
    else if c == '<' then "&lt;"
    else if c == '>' then "&gt;"
    else if c == '"' then "&quot;"
    else if c == '\'' then "&apos;"
    else [c]
  }

  /** The reference: each character replaced by its entity. */
  function EscapeChars(s: string): (r: string)
    decreases |s|
  {
    if |s| == 0 then [] else Entity(s[0]) + EscapeChars(s[1..])
  }

  /** Escaping one character gives its entity: no later replacement
      touches the entity an earlier one produced. */
  lemma EscapeOne(c: char)
    ensures Escape([c]) == Entity(c)
  {
    if c == '&' { EscapeAmp([c]); }
    else if c == '<' { EscapeLt([c]); }
    else if c == '>' { EscapeGt([c]); }
    else if c == '"' { EscapeQuot([c]); }
    else if c == '\'' { EscapeApos([c]); }
    else { EscapePlain([c]); }
  }

  lemma ReplaceOne(c: char, d: char, rep: string)
    ensures ReplaceChar([c], d, rep) == if c == d then rep else [c]
  {
    assert [c][1..] == [];
  }

  lemma EscapeAmp(s: string)
    requires s == "&"
    ensures Escape(s) == "&amp;"
  {
    ReplaceOne('&', '&', "&amp;");
    AmpSurvives("&amp;");
  }

  /** The later replacements leave the ampersand entity alone. */
  lemma AmpSurvives(e: string)
    requires e == "&amp;"
    ensures ReplaceChar(ReplaceChar(ReplaceChar(ReplaceChar(e, '<', "&lt;"), '>', "&gt;"), '"', "&quot;"), '\'', "&apos;") == e
  {
    assert '<' !in e && '>' !in e && '"' !in e && '\'' !in e;
  }

  lemma EscapeLt(s: string)
    requires s == "<"
    ensures Escape(s) == "&lt;"
  {
    ReplaceOne('<', '&', "&amp;");
    ReplaceOne('<', '<', "&lt;");
    LtSurvives("&lt;");
  }

  lemma LtSurvives(e: string)
    requires e == "&lt;"
    ensures ReplaceChar(ReplaceChar(ReplaceChar(e, '>', "&gt;"), '"', "&quot;"), '\'', "&apos;") == e
  {
    assert '>' !in e && '"' !in e && '\'' !in e;
  }

  lemma EscapeGt(s: string)
    requires s == ">"
    ensures Escape(s) == "&gt;"
  {
    ReplaceOne('>', '&', "&amp;");
    ReplaceOne('>', '<', "&lt;");
    ReplaceOne('>', '>', "&gt;");
    GtSurvives("&gt;");
  }

  lemma GtSurvives(e: string)
    requires e == "&gt;"
    ensures ReplaceChar(ReplaceChar(e, '"', "&quot;"), '\'', "&apos;") == e
  {
    assert '"' !in e && '\'' !in e;
  }

  lemma EscapeQuot(s: string)
    requires s == "\""
    ensures Escape(s) == "&quot;"
  {
    ReplaceOne('"', '&', "&amp;");
    ReplaceOne('"', '<', "&lt;");
    ReplaceOne('"', '>', "&gt;");
    ReplaceOne('"', '"', "&quot;");
  }

  lemma EscapeApos(s: string)
    requires s == "'"
    ensures Escape(s) == "&apos;"
  {
    ReplaceOne('\'', '&', "&amp;");
    ReplaceOne('\'', '<', "&lt;");
    ReplaceOne('\'', '>', "&gt;");
    ReplaceOne('\'', '"', "&quot;");
    ReplaceOne('\'', '\'', "&apos;");
  }

  lemma EscapePlain(s: string)
    requires |s| == 1 && !Special(s[0])
    ensures Escape(s) == s
  {
  }

  /** Escaping distributes over concatenation. */
  lemma EscapeConcat(a: string, b: string)
    ensures Escape(a + b) == Escape(a) + Escape(b)
  {
    var amp := ReplaceChar(a + b, '&', "&amp;");
    ReplaceConcat(a, b, '&', "&amp;");
    var a1, b1 := ReplaceChar(a, '&', "&amp;"), ReplaceChar(b, '&', "&amp;");
    ReplaceConcat(a1, b1, '<', "&lt;");
    var a2, b2 := ReplaceChar(a1, '<', "&lt;"), ReplaceChar(b1, '<', "&lt;");
    ReplaceConcat(a2, b2, '>', "&gt;");
    var a3, b3 := ReplaceChar(a2, '>', "&gt;"), ReplaceChar(b2, '>', "&gt;");
    ReplaceConcat(a3, b3, '"', "&quot;");
    var a4, b4 := ReplaceChar(a3, '"', "&quot;"), ReplaceChar(b3, '"', "&quot;");
    ReplaceConcat(a4, b4, '\'', "&apos;");
  }

  /** The five sequential replacements agree with the character-by-character
      reference. */
  lemma {:induction false} EscapeIsPerChar(s: string)
    ensures Escape(s) == EscapeChars(s)
    decreases |s|
  {
    if |s| == 0 {
    } else {
      assert s == [s[0]] + s[1..];
      EscapeConcat([s[0]], s[1..]);
      EscapeOne(s[0]);
      EscapeIsPerChar(s[1..]);
    }
  }

  /** The reference leaves no `<`, `>`, `"` or `'`, and never shortens. */
  lemma {:induction false} EscapedChars(s: string)
    ensures forall i | 0 <= i < |EscapeChars(s)| :: EscapeChars(s)[i] !in "<>\"'"
    ensures |EscapeChars(s)| >= |s|
    ensures |EscapeChars(s)| == |s| <==> forall i | 0 <= i < |s| :: !Special(s[i])
    decreases |s|
  {
    if |s| > 0 {
      EscapedChars(s[1..]);
      var e, rest := Entity(s[0]), EscapeChars(s[1..]);
      forall i | 0 <= i < |e + rest| ensures (e + rest)[i] !in "<>\"'" {
        if i >= |e| {
          assert (e + rest)[i] == rest[i - |e|];
        }
      }
      if forall i | 0 <= i < |s[1..]| :: !Special(s[1..][i]) {
        assert forall i | 1 <= i < |s| :: !Special(s[i]) by {
          forall i | 1 <= i < |s| ensures !Special(s[i]) {
            assert s[i] == s[1..][i - 1];
          }
        }
      }
    }
  }

  /** The output of `escapeXml` holds none of `<`, `>`, `"`, `'`. */
  lemma EscapeRemovesSpecials(s: string)
    ensures forall i | 0 <= i < |Escape(s)| :: Escape(s)[i] !in "<>\"'"
  {
    EscapeIsPerChar(s);
    EscapedChars(s);
  }

  /** Text without special characters is left alone, and only such text
      keeps its length. */
  lemma EscapeIdentity(s: string)
    ensures Escape(s) == s <==> forall i | 0 <= i < |s| :: !Special(s[i])
    ensures |Escape(s)| == |s| <==> forall i | 0 <= i < |s| :: !Special(s[i])
  {
    EscapeIsPerChar(s);
    EscapedChars(s);
    if forall i | 0 <= i < |s| :: !Special(s[i]) {
      CleanUnchanged(s);
    }
  }

  lemma {:induction false} CleanUnchanged(s: string)
    requires forall i | 0 <= i < |s| :: !Special(s[i])
    ensures EscapeChars(s) == s
    decreases |s|
  {
    if |s| > 0 {
      CleanUnchanged(s[1..]);
    }
  }

  // ---------------------------------------------------------------------
  // Decoding

  predicate StartsWith(t: string, p: string) {
    |p| <= |t| && t[..|p|] == p
  }

  /** The five entities and what they stand for, in the order tried. */
  const Entities: seq<(string, char)> :=
    [("&amp;", '&'), ("&lt;", '<'), ("&gt;", '>'), ("&quot;", '"'), ("&apos;", '\'')]

  /** Every `&` of the text opens one of the five entities. */
  predicate EntitiesOnly(t: string) {
    forall i | 0 <= i < |t| && t[i] == '&' :: exists k | 0 <= k < |Entities| :: StartsWith(t[i..], Entities[k].0)
  }

  /** The entity `t` opens with, if any. */
  function Decode1(t: string): (r: Decoded)
    ensures r.Found? ==> 1 < r.len <= |t| && StartsWith(t, Entity(r.c)) && r.len == |Entity(r.c)|
  {
    if StartsWith(t, "&amp;") then Found('&', 5)
    else if StartsWith(t, "&lt;") then Found('<', 4)
    else if StartsWith(t, "&gt;") then Found('>', 4)
    else if StartsWith(t, "&quot;") then Found('"', 6)
    else if StartsWith(t, "&apos;") then Found('\'', 6)
    else Plain
  }

  /** What the decoder finds at the front of a string: one of the five
      entities, giving its character and length, or plain text. */
  datatype Decoded = Plain | Found(c: char, len: nat)

  /** Decoding the five entities, left to right. */
  function Unescape(t: string): (s: string)
    ensures |s| <= |t|
    decreases |t|
  {
    if |t| == 0 then []
    else match Decode1(t)
      case Found(c, len) => [c] + Unescape(t[len..])
      case Plain => [t[0]] + Unescape(t[1..])
  }

  /** An entity followed by anything decodes to its character first. */
  lemma UnescapeEntity(c: char, t: string)
    ensures Unescape(Entity(c) + t) == [c] + Unescape(t)
  {
    var e := Entity(c);
    if Special(c) {
      if c == '&' { DecodeAmp(e, t); }
      else if c == '<' { DecodeLt(e, t); }
      else if c == '>' { DecodeGt(e, t); }
      else if c == '"' { DecodeQuot(e, t); }
      else { DecodeApos(e, t); }
      assert (e + t)[|e|..] == t;
    } else {
      assert (e + t)[0] == c;
      assert (e + t)[1..] == t;
    }
  }

  lemma DecodeAmp(e: string, t: string)
    requires e == "&amp;"
    ensures Decode1(e + t) == Found('&', 5)
  {
    assert (e + t)[..5] == e;
  }

  lemma DecodeLt(e: string, t: string)
    requires e == "&lt;"
    ensures Decode1(e + t) == Found('<', 4)
  {
    assert (e + t)[..4] == e;
    assert (e + t)[1] == 'l';
  }

  lemma DecodeGt(e: string, t: string)
    requires e == "&gt;"
    ensures Decode1(e + t) == Found('>', 4)
  {
    assert (e + t)[..4] == e;
    assert (e + t)[1] == 'g';
  }

  lemma DecodeQuot(e: string, t: string)
    requires e == "&quot;"
    ensures Decode1(e + t) == Found('"', 6)
  {
    assert (e + t)[..6] == e;
    assert (e + t)[1] == 'q';
  }

  lemma DecodeApos(e: string, t: string)
    requires e == "&apos;"
    ensures Decode1(e + t) == Found('\'', 6)
  {
    assert (e + t)[..6] == e;
    assert (e + t)[1] == 'a' && (e + t)[2] == 'p';
  }

  /** Decoding recovers the text that was escaped. */
  lemma {:induction false} RoundTrip(s: string)
    ensures Unescape(Escape(s)) == s
  {
    EscapeIsPerChar(s);
    RoundTripChars(s);
  }

  lemma {:induction false} RoundTripChars(s: string)
    ensures Unescape(EscapeChars(s)) == s
    decreases |s|
  {
    if |s| > 0 {
      UnescapeEntity(s[0], EscapeChars(s[1..]));
      RoundTripChars(s[1..]);
    }
  }

  /** Ampersands are escaped first, so every `&` of the output opens an
      entity: nothing is escaped twice. */
  lemma EscapeOpensEntities(s: string)
    ensures EntitiesOnly(Escape(s))
  {
    EscapeIsPerChar(s);
    EntitiesOnlyChars(s);
  }

  lemma {:induction false} EntitiesOnlyChars(s: string)
    ensures EntitiesOnly(EscapeChars(s))
    decreases |s|
  {
    if |s| > 0 {
      EntitiesOnlyChars(s[1..]);
      var e, rest := Entity(s[0]), EscapeChars(s[1..]);
      var t := e + rest;
      forall i | 0 <= i < |t| && t[i] == '&'
        ensures exists k | 0 <= k < |Entities| :: StartsWith(t[i..], Entities[k].0)
      {
        if i >= |e| {
          assert t[i..] == rest[i - |e|..];
          assert rest[i - |e|] == '&';
        } else {
          EntityAmpersand(s[0], i);
          assert t[i..][..|e|] == e;
          EntityListed(s[0]);
        }
      }
    }
  }

  /** An entity holds `&` only at its start. */
  lemma EntityAmpersand(c: char, i: nat)
    requires i < |Entity(c)| && Entity(c)[i] == '&'
    ensures i == 0 && Special(c)
  {
  }

  lemma EntityListed(c: char)
    requires Special(c)
    ensures exists k | 0 <= k < |Entities| :: Entities[k].0 == Entity(c)
  {
    if c == '&' { assert Entities[0].0 == Entity(c); }
    else if c == '<' { assert Entities[1].0 == Entity(c); }
    else if c == '>' { assert Entities[2].0 == Entity(c); }
    else if c == '"' { assert Entities[3].0 == Entity(c); }
    else { assert Entities[4].0 == Entity(c); }
  }
}
