/** HTML escaping of untrusted text, as the result page and the error page use it.

    `EscapeHtml` is the four-pass chain of global replacements the server applies;
    `Encode` is the per-character substitution it amounts to, and `Unescape` is the
    four-pass chain that undoes it. */
module HtmlEscape {

  /** The characters the server escapes. */
  const Specials: set<char> := {'&', '<', '>', '"'}

  /** The entity that stands for a special character; any other character stands for itself. */
  function Entity(c: char): (e: string)
    ensures c in Specials <==> |e| > 1
    ensures c in Specials ==> e[0] == '&' && '&' !in e[1..]
    ensures c !in Specials ==> e == [c]
  {
    match c
    case '&' => "&amp;"
    case '<' => "&lt;"
    case '>' => "&gt;"
    case '"' => "&quot;"
    case _ => [c]
  }

  /** Global replacement of a literal, non-empty pattern, as `s.replace(/pat/g, rep)`:
      scan from the left and replace each non-overlapping occurrence. */
  function ReplaceAll(s: string, pat: string, rep: string): (r: string)
    requires pat != []
    decreases |s|
  {
    if s == [] then []
    else if pat <= s then rep + ReplaceAll(s[|pat|..], pat, rep)
    else [s[0]] + ReplaceAll(s[1..], pat, rep)
  }

  /** The server's escaping: `&` first, then `<`, `>` and `"`. */
  function EscapeHtml(s: string): string
  {
    ReplaceAll(ReplaceAll(ReplaceAll(ReplaceAll(s, "&", "&amp;"), "<", "&lt;"), ">", "&gt;"), "\"", "&quot;")
  }

  /** The inverse chain: `&quot;`, `&gt;` and `&lt;` first, `&amp;` last. */
  function Unescape(s: string): string
  {
    ReplaceAll(ReplaceAll(ReplaceAll(ReplaceAll(s, "&quot;", "\""), "&gt;", ">"), "&lt;", "<"), "&amp;", "&")
  }

  /** Per-character substitution: each character in `m` becomes its entity, every other one stays. */
  function Encode(m: set<char>, s: string): string
    decreases |s|
  {
    if s == [] then []
    else (if s[0] in m then Entity(s[0]) else [s[0]]) + Encode(m, s[1..])
  }

  /** Number of occurrences of `c` in `s`. */
  function Count(c: char, s: string): nat
    decreases |s|
  {
    if s == [] then 0
    else (if s[0] == c then 1 else 0) + Count(c, s[1..])
  }

  /** True when `t` starts with one of the four entities. */
  predicate StartsEntity(t: string)
  {
    "&amp;" <= t || "&lt;" <= t || "&gt;" <= t || "&quot;" <= t
  }

  /** True when every `&` in `r` begins one of the four entities. */
  predicate AmpersandsBeginEntities(r: string)
  {
    forall i | 0 <= i < |r| && r[i] == '&' :: StartsEntity(r[i..])
  }

  // ---------------------------------------------------------------------------
  // ReplaceAll on a one-character pattern

  lemma {:induction false} ReplaceCharAppend(a: string, b: string, c: char, rep: string)
    ensures ReplaceAll(a + b, [c], rep) == ReplaceAll(a, [c], rep) + ReplaceAll(b, [c], rep)
    decreases |a|
  {
    if a != [] {
      assert (a + b)[1..] == a[1..] + b;
      ReplaceCharAppend(a[1..], b, c, rep);
    } else {
      assert a + b == b;
    }
  }

  lemma {:induction false} ReplaceCharAbsent(u: string, c: char, rep: string)
    requires c !in u
    ensures ReplaceAll(u, [c], rep) == u
    decreases |u|
  {
    if u != [] {
      assert u[0] != c;
      ReplaceCharAbsent(u[1..], c, rep);
    }
  }

  // ---------------------------------------------------------------------------
  // ReplaceAll on a pattern that starts with '&'

  /** Text without `&` passes through unchanged, and the scan resumes right after it. */
  lemma {:induction false} ReplaceSkipsAmpFree(u: string, x: string, pat: string, rep: string)
    requires pat != [] && pat[0] == '&' && '&' !in u
    ensures ReplaceAll(u + x, pat, rep) == u + ReplaceAll(x, pat, rep)
    decreases |u|
  {
    if u != [] {
      assert (u + x)[0] == u[0];
      assert !(pat <= u + x);
      assert (u + x)[1..] == u[1..] + x;
      ReplaceSkipsAmpFree(u[1..], x, pat, rep);
    } else {
      assert u + x == x;
    }
  }

  /** An entity other than the pattern passes through unchanged. */
  lemma ReplaceSkipsOtherEntity(d: char, c: char, x: string, rep: string)
    requires d in Specials && c in Specials && d != c
    ensures ReplaceAll(Entity(d) + x, Entity(c), rep) == Entity(d) + ReplaceAll(x, Entity(c), rep)
  {
    var e, pat := Entity(d), Entity(c);
    assert e[1] != pat[1];
    assert (e + x)[1] == e[1];
    assert !(pat <= e + x);
    assert (e + x)[1..] == e[1..] + x;
    ReplaceSkipsAmpFree(e[1..], x, pat, rep);
    assert [e[0]] + e[1..] == e;
  }

  /** The pattern itself is replaced, and the scan resumes right after it. */
  lemma ReplaceMatch(x: string, pat: string, rep: string)
    requires pat != []
    ensures ReplaceAll(pat + x, pat, rep) == rep + ReplaceAll(x, pat, rep)
  {
    assert pat <= pat + x;
    assert (pat + x)[|pat|..] == x;
  }

  // ---------------------------------------------------------------------------
  // Each pass of the two chains, on per-character encodings

  lemma EncodeNone(s: string)
    ensures Encode({}, s) == s
  {
  }

  /** Encode splits over concatenation. */
  lemma {:induction false} EncodeAppend(m: set<char>, a: string, b: string)
    ensures Encode(m, a + b) == Encode(m, a) + Encode(m, b)
    decreases |a|
  {
    if a == [] {
      assert a + b == b;
    } else {
      assert (a + b)[1..] == a[1..] + b;
      EncodeAppend(m, a[1..], b);
    }
  }

  /** One escaping pass adds `c` to the set of encoded characters. */
  lemma {:induction false} EncodePass(m: set<char>, c: char, s: string)
    requires m <= Specials && c in Specials && c !in m
    requires c == '&' ==> m == {}
    ensures ReplaceAll(Encode(m, s), [c], Entity(c)) == Encode(m + {c}, s)
    decreases |s|
  {
    if s != [] {
      var d := s[0];
      var piece := if d in m then Entity(d) else [d];
      ReplaceCharAppend(piece, Encode(m, s[1..]), c, Entity(c));
      if d == c {
        assert ReplaceAll(piece, [c], Entity(c)) == Entity(c) + ReplaceAll([], [c], Entity(c));
      } else {
        assert c !in piece;
        ReplaceCharAbsent(piece, c, Entity(c));
      }
      EncodePass(m, c, s[1..]);
    }
  }

  /** One unescaping pass removes `c` from the set of encoded characters. */
  lemma {:induction false} DecodePass(m: set<char>, c: char, s: string)
    requires m <= Specials && c in m && '&' in m
    requires c == '&' ==> m == {'&'}
    ensures ReplaceAll(Encode(m, s), Entity(c), [c]) == Encode(m - {c}, s)
    decreases |s|
  {
    if s != [] {
      var d := s[0];
      var x := Encode(m, s[1..]);
      if d == c {
        ReplaceMatch(x, Entity(c), [c]);
      } else if d in m {
        ReplaceSkipsOtherEntity(d, c, x, [c]);
      } else {
        ReplaceSkipsAmpFree([d], x, Entity(c), [c]);
      }
      DecodePass(m, c, s[1..]);
    }
  }

  // ---------------------------------------------------------------------------
  // Properties of EscapeHtml

  /** The chain of four replacements is the per-character substitution of all four specials. */
  lemma EscapeHtmlIsEncode(s: string)
    ensures EscapeHtml(s) == Encode(Specials, s)
  {
    var s1 := ReplaceAll(s, "&", "&amp;");
    var s2 := ReplaceAll(s1, "<", "&lt;");
    var s3 := ReplaceAll(s2, ">", "&gt;");
    EncodeNone(s);
    EncodePass({}, '&', s);
    assert {} + {'&'} == {'&'} && "&" == ['&'] && Entity('&') == "&amp;";
    assert s1 == Encode({'&'}, s);
    EncodePass({'&'}, '<', s);
    assert {'&'} + {'<'} == {'&', '<'} && "<" == ['<'] && Entity('<') == "&lt;";
    assert s2 == Encode({'&', '<'}, s);
    EncodePass({'&', '<'}, '>', s);
    assert {'&', '<'} + {'>'} == {'&', '<', '>'} && ">" == ['>'] && Entity('>') == "&gt;";
    assert s3 == Encode({'&', '<', '>'}, s);
    EncodePass({'&', '<', '>'}, '"', s);
    assert "\"" == ['"'] && Entity('"') == "&quot;";
    assert {'&', '<', '>'} + {'"'} == Specials;
  }

  /** Unescaping recovers the original text. */
  lemma EscapeRoundTrip(s: string)
    ensures Unescape(EscapeHtml(s)) == s
  {
    EscapeHtmlIsEncode(s);
    DecodePass(Specials, '"', s);
    assert Specials - {'"'} == {'&', '<', '>'};
    DecodePass({'&', '<', '>'}, '>', s);
    assert {'&', '<', '>'} - {'>'} == {'&', '<'};
    DecodePass({'&', '<'}, '<', s);
    assert {'&', '<'} - {'<'} == {'&'};
    DecodePass({'&'}, '&', s);
    assert {'&'} - {'&'} == {};
    EncodeNone(s);
  }

  /** Escaping is injective: distinct texts stay distinct. */
  lemma EscapeInjective(a: string, b: string)
    ensures EscapeHtml(a) == EscapeHtml(b) ==> a == b
  {
    EscapeRoundTrip(a);
    EscapeRoundTrip(b);
  }

  lemma {:induction false} EncodeNoRaw(s: string)
    ensures '<' !in Encode(Specials, s) && '>' !in Encode(Specials, s) && '"' !in Encode(Specials, s)
    decreases |s|
  {
    if s != [] {
      EncodeNoRaw(s[1..]);
    }
  }

  /** The escaped text holds no raw `<`, `>` or `"`. */
  lemma EscapeHtmlNoRaw(s: string)
    ensures '<' !in EscapeHtml(s) && '>' !in EscapeHtml(s) && '"' !in EscapeHtml(s)
  {
    EscapeHtmlIsEncode(s);
    EncodeNoRaw(s);
  }

  lemma {:induction false} EncodeAmpersands(s: string)
    ensures AmpersandsBeginEntities(Encode(Specials, s))
    decreases |s|
  {
    if s != [] {
      var r := Encode(Specials, s);
      var piece := if s[0] in Specials then Entity(s[0]) else [s[0]];
      var rest := Encode(Specials, s[1..]);
      EncodeAmpersands(s[1..]);
      assert r == piece + rest;
      forall i | 0 <= i < |r| && r[i] == '&'
        ensures StartsEntity(r[i..])
      {
        if i < |piece| {
          assert i == 0 && r[i..] == piece + rest;
          if s[0] == '&' {
            assert "&amp;" <= r[i..];
          } else if s[0] == '<' {
            assert "&lt;" <= r[i..];
          } else if s[0] == '>' {
            assert "&gt;" <= r[i..];
          } else {
            assert s[0] == '"';
            assert "&quot;" <= r[i..];
          }
        } else {
          var j := i - |piece|;
          assert rest[j] == r[i] && r[i..] == rest[j..];
          assert AmpersandsBeginEntities(rest);
        }
      }
    }
  }

  /** Every `&` in the escaped text begins one of the four entities. */
  lemma EscapeHtmlAmpersands(s: string)
    ensures AmpersandsBeginEntities(EscapeHtml(s))
  {
    EscapeHtmlIsEncode(s);
    EncodeAmpersands(s);
  }

  lemma {:induction false} EncodeLength(s: string)
    ensures |Encode(Specials, s)| ==
      |s| + 4 * Count('&', s) + 3 * Count('<', s) + 3 * Count('>', s) + 5 * Count('"', s)
    decreases |s|
  {
    if s != [] {
      EncodeLength(s[1..]);
    }
  }

  /** Each `&` adds four characters, each `<` or `>` three, each `"` five. */
  lemma EscapeHtmlLength(s: string)
    ensures |EscapeHtml(s)| ==
      |s| + 4 * Count('&', s) + 3 * Count('<', s) + 3 * Count('>', s) + 5 * Count('"', s)
  {
    EscapeHtmlIsEncode(s);
    EncodeLength(s);
  }

  lemma {:induction false} CountPositive(c: char, s: string)
    requires c in s
    ensures Count(c, s) > 0
    decreases |s|
  {
    if s[0] != c {
      CountPositive(c, s[1..]);
    }
  }

  lemma {:induction false} EncodeUnchanged(s: string)
    requires forall i | 0 <= i < |s| :: s[i] !in Specials
    ensures Encode(Specials, s) == s
    decreases |s|
  {
    if s != [] {
      EncodeUnchanged(s[1..]);
    }
  }

  /** Escaping leaves a text unchanged exactly when it holds none of the four specials. */
  lemma EscapeHtmlFixedPoint(s: string)
    ensures EscapeHtml(s) == s <==> forall i | 0 <= i < |s| :: s[i] !in Specials
  {
    if forall i | 0 <= i < |s| :: s[i] !in Specials {
      EscapeHtmlIsEncode(s);
      EncodeUnchanged(s);
    } else {
      var i :| 0 <= i < |s| && s[i] in Specials;
      CountPositive(s[i], s);
      EscapeHtmlLength(s);
    }
  }

  /** Escaping is a per-character substitution: it splits over concatenation. */
  lemma EscapeHtmlAppend(a: string, b: string)
    ensures EscapeHtml(a + b) == EscapeHtml(a) + EscapeHtml(b)
  {
    EscapeHtmlIsEncode(a + b);
    EscapeHtmlIsEncode(a);
    EscapeHtmlIsEncode(b);
    EncodeAppend(Specials, a, b);
  }

  /** A single character is replaced by its entity; every other character is kept. */
  lemma EscapeHtmlChar(c: char)
    ensures EscapeHtml([c]) == Entity(c)
  {
    EscapeHtmlIsEncode([c]);
  }

  /** Text placed around an escaped string and holding no specials reads back, once
      unescaped, as the string itself in the same place. */
  lemma EscapedBetween(prefix: string, s: string, suffix: string)
    requires forall i | 0 <= i < |prefix| :: prefix[i] !in Specials
    requires forall i | 0 <= i < |suffix| :: suffix[i] !in Specials
    ensures Unescape(prefix + EscapeHtml(s) + suffix) == prefix + s + suffix
  {
    EscapeHtmlFixedPoint(prefix);
    EscapeHtmlFixedPoint(suffix);
    EscapeHtmlAppend(prefix, s);
    EscapeHtmlAppend(prefix + s, suffix);
    EscapeRoundTrip(prefix + s + suffix);
  }

  lemma EscapedAfter(prefix: string, s: string)
    requires forall i | 0 <= i < |prefix| :: prefix[i] !in Specials
    ensures Unescape(prefix + EscapeHtml(s)) == prefix + s
  {
    EscapedBetween(prefix, s, "");
    assert prefix + EscapeHtml(s) + "" == prefix + EscapeHtml(s);
    assert prefix + s + "" == prefix + s;
  }

  lemma EscapedBefore(s: string, suffix: string)
    requires forall i | 0 <= i < |suffix| :: suffix[i] !in Specials
    ensures Unescape(EscapeHtml(s) + suffix) == s + suffix
  {
    EscapedBetween("", s, suffix);
    assert "" + EscapeHtml(s) + suffix == EscapeHtml(s) + suffix;
    assert "" + s + suffix == s + suffix;
  }
}
