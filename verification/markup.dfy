/** A minimal reading of HTML text as a stream of tokens, used to state what the
    rendered pages look like when read as tags and text: a `<` opens a tag that runs to the next
    `>`, and every other character is text. A `<` with no `>` after it is text. */
module Markup {

  datatype Token = Tag(markup: string) | Chr(c: char)

  /** Index of the first `>` in `s`. */
  function CloseIndex(s: string): (k: nat)
    requires '>' in s
    ensures k < |s| && s[k] == '>'
  {
    if s[0] == '>' then 0 else 1 + CloseIndex(s[1..])
  }

  /** The token stream of an HTML text. */
  function Lex(s: string): seq<Token>
    decreases |s|
  {
    if s == [] then []
    else if s[0] == '<' && '>' in s then
      var k := CloseIndex(s);
      [Tag(s[..k + 1])] + Lex(s[k + 1..])
    else [Chr(s[0])] + Lex(s[1..])
  }

  /** The text a token stream is written as. */
  function Render(ts: seq<Token>): string
    decreases |ts|
  {
    if ts == [] then []
    else (match ts[0] case Tag(t) => t case Chr(c) => [c]) + Render(ts[1..])
  }

  /** The tokens of a text that holds no markup. */
  function Chars(s: string): seq<Token>
  {
    seq(|s|, i requires 0 <= i < |s| => Chr(s[i]))
  }

  /** The tags of a token stream, in order. */
  function Tags(ts: seq<Token>): seq<string>
    decreases |ts|
  {
    if ts == [] then []
    else (if ts[0].Tag? then [ts[0].markup] else []) + Tags(ts[1..])
  }

  /** The text of a token stream, the characters outside its tags, in order. */
  function Text(ts: seq<Token>): string
    decreases |ts|
  {
    if ts == [] then []
    else (if ts[0].Chr? then [ts[0].c] else []) + Text(ts[1..])
  }

  /** `t` is exactly one tag. */
  predicate IsTag(t: string)
  {
    |t| >= 2 && t[0] == '<' && t[|t| - 1] == '>' &&
    forall i | 0 < i < |t| - 1 :: t[i] != '<' && t[i] != '>'
  }

  /** Every tag token is one tag and no text token is a `<`. */
  predicate WellFormed(ts: seq<Token>)
  {
    forall i | 0 <= i < |ts| :: if ts[i].Tag? then IsTag(ts[i].markup) else ts[i].c != '<'
  }

  /** `run` occurs as a contiguous stretch of `s`. */
  predicate ContainsRun<T(==)>(s: seq<T>, run: seq<T>)
  {
    exists i | 0 <= i <= |s| :: run <= s[i..]
  }

  // ---------------------------------------------------------------------------

  lemma {:induction false} CloseIndexFirst(s: string, j: nat)
    requires '>' in s && j < CloseIndex(s)
    ensures s[j] != '>'
    decreases |s|
  {
    if j > 0 {
      CloseIndexFirst(s[1..], j - 1);
    }
  }

  /** A tag at the front of a text closes at its own `>`. */
  lemma CloseIndexTag(t: string, rest: string)
    requires IsTag(t)
    ensures '>' in t + rest && CloseIndex(t + rest) == |t| - 1
  {
    var s := t + rest;
    assert s[|t| - 1] == '>';
    var k := CloseIndex(s);
    if k > |t| - 1 {
      CloseIndexFirst(s, |t| - 1);
    }
  }

  /** A well-formed token stream reads back as itself: written out and lexed again,
      no text token turns into markup and no tag splits or merges. */
  lemma {:induction false} LexRender(ts: seq<Token>)
    requires WellFormed(ts)
    ensures Lex(Render(ts)) == ts
    decreases |ts|
  {
    if ts != [] {
      var rest := Render(ts[1..]);
      assert WellFormed(ts[1..]) by {
        forall i | 0 <= i < |ts[1..]|
          ensures if ts[1..][i].Tag? then IsTag(ts[1..][i].markup) else ts[1..][i].c != '<'
        {
          assert ts[1..][i] == ts[i + 1];
        }
      }
      LexRender(ts[1..]);
      match ts[0]
      case Tag(t) =>
        var s := t + rest;
        assert Render(ts) == s;
        CloseIndexTag(t, rest);
        assert s[..|t|] == t;
        assert s[|t|..] == rest;
      case Chr(c) =>
        var s := [c] + rest;
        assert Render(ts) == s;
        assert s[1..] == rest;
    }
  }

  lemma {:induction false} RenderAppend(x: seq<Token>, y: seq<Token>)
    ensures Render(x + y) == Render(x) + Render(y)
    decreases |x|
  {
    if x == [] {
      assert x + y == y;
    } else {
      assert (x + y)[1..] == x[1..] + y;
      RenderAppend(x[1..], y);
    }
  }

  lemma {:induction false} RenderChars(s: string)
    ensures Render(Chars(s)) == s
    decreases |s|
  {
    if s != [] {
      assert Chars(s)[1..] == Chars(s[1..]);
      RenderChars(s[1..]);
    }
  }

  lemma {:induction false} TagsAppend(x: seq<Token>, y: seq<Token>)
    ensures Tags(x + y) == Tags(x) + Tags(y)
    decreases |x|
  {
    if x == [] {
      assert x + y == y;
    } else {
      assert (x + y)[1..] == x[1..] + y;
      TagsAppend(x[1..], y);
    }
  }

  /** Text contributes no tags. */
  lemma {:induction false} TagsChars(s: string)
    ensures Tags(Chars(s)) == []
    decreases |s|
  {
    if s != [] {
      assert Chars(s)[1..] == Chars(s[1..]);
      TagsChars(s[1..]);
    }
  }

  lemma {:induction false} TextAppend(x: seq<Token>, y: seq<Token>)
    ensures Text(x + y) == Text(x) + Text(y)
    decreases |x|
  {
    if x == [] {
      assert x + y == y;
    } else {
      var first: string := if x[0].Chr? then [x[0].c] else [];
      assert (x + y)[0] == x[0];
      assert (x + y)[1..] == x[1..] + y;
      TextAppend(x[1..], y);
      assert Text(x + y) == first + (Text(x[1..]) + Text(y));
    }
  }

  lemma {:induction false} TextChars(s: string)
    ensures Text(Chars(s)) == s
    decreases |s|
  {
    if s != [] {
      assert Chars(s)[1..] == Chars(s[1..]);
      TextChars(s[1..]);
    }
  }

  /** A single tag token. */
  lemma TagPiece(t: string)
    ensures Render([Tag(t)]) == t && Tags([Tag(t)]) == [t] && Text([Tag(t)]) == []
    ensures IsTag(t) ==> WellFormed([Tag(t)])
  {
    assert [Tag(t)][1..] == [];
  }

  /** A text without tags. */
  lemma CharsPiece(s: string)
    ensures Render(Chars(s)) == s && Tags(Chars(s)) == [] && Text(Chars(s)) == s
    ensures '<' !in s ==> WellFormed(Chars(s))
  {
    RenderChars(s);
    TagsChars(s);
    TextChars(s);
  }

  // Writing out a stream piece by piece, and checking that it stays well formed.

  lemma Rendered(x: seq<Token>, y: seq<Token>)
    requires WellFormed(x) && WellFormed(y)
    ensures Render(x + y) == Render(x) + Render(y) && WellFormed(x + y)
  {
    RenderAppend(x, y);
  }

  lemma RenderedTag(x: seq<Token>, t: string)
    requires WellFormed(x) && IsTag(t)
    ensures Render(x + [Tag(t)]) == Render(x) + t && WellFormed(x + [Tag(t)])
  {
    TagPiece(t);
    Rendered(x, [Tag(t)]);
  }

  lemma RenderedChars(x: seq<Token>, s: string)
    requires WellFormed(x) && '<' !in s
    ensures Render(x + Chars(s)) == Render(x) + s && WellFormed(x + Chars(s))
  {
    CharsPiece(s);
    Rendered(x, Chars(s));
  }

  /** Three well-formed streams in a row. */
  lemma Framed(x: seq<Token>, y: seq<Token>, z: seq<Token>)
    requires WellFormed(x) && WellFormed(y) && WellFormed(z)
    ensures Render(x + y + z) == Render(x) + Render(y) + Render(z) && WellFormed(x + y + z)
  {
    Rendered(x, y);
    Rendered(x + y, z);
  }

  // The tags and the text of a stream, piece by piece.

  lemma TaggedTag(x: seq<Token>, t: string)
    ensures Tags(x + [Tag(t)]) == Tags(x) + [t]
  {
    TagPiece(t);
    TagsAppend(x, [Tag(t)]);
  }

  lemma TaggedChars(x: seq<Token>, s: string)
    ensures Tags(x + Chars(s)) == Tags(x)
  {
    CharsPiece(s);
    TagsAppend(x, Chars(s));
  }

  lemma TextAfterTag(x: seq<Token>, t: string)
    ensures Text(x + [Tag(t)]) == Text(x)
  {
    TagPiece(t);
    TextAppend(x, [Tag(t)]);
  }

  lemma TextAfterChars(x: seq<Token>, s: string)
    ensures Text(x + Chars(s)) == Text(x) + s
    ensures Text(x) == [] ==> Text(x + Chars(s)) == s
  {
    CharsPiece(s);
    TextAppend(x, Chars(s));
  }

  lemma ContainsRunSelf<T>(run: seq<T>)
    ensures ContainsRun(run, run)
  {
    assert run <= run[0..];
  }

  lemma ContainsRunAppend<T>(x: seq<T>, y: seq<T>, run: seq<T>)
    ensures ContainsRun(x, run) ==> ContainsRun(x + y, run)
    ensures ContainsRun(y, run) ==> ContainsRun(x + y, run)
  {
    if ContainsRun(x, run) {
      var i :| 0 <= i <= |x| && run <= x[i..];
      assert run <= (x + y)[i..];
    }
    if ContainsRun(y, run) {
      var i :| 0 <= i <= |y| && run <= y[i..];
      assert (x + y)[|x| + i..] == y[i..];
    }
  }

  lemma ContainsRunWithin<T>(x: seq<T>, run: seq<T>, y: seq<T>)
    ensures ContainsRun(x + run + y, run)
  {
    ContainsRunSelf(run);
    ContainsRunAppend(x, run, run);
    ContainsRunAppend(x + run, y, run);
  }

  lemma ContainsRunTrans<T>(s: seq<T>, mid: seq<T>, run: seq<T>)
    requires ContainsRun(s, mid) && ContainsRun(mid, run)
    ensures ContainsRun(s, run)
  {
    var i :| 0 <= i <= |s| && mid <= s[i..];
    var j :| 0 <= j <= |mid| && run <= mid[j..];
    assert run <= s[i + j..];
  }

  /** A stretch of tokens brings its tags, in order, into the tags of the whole. */
  lemma ContainsRunTags(ts: seq<Token>, run: seq<Token>)
    requires ContainsRun(ts, run)
    ensures ContainsRun(Tags(ts), Tags(run))
  {
    var i :| 0 <= i <= |ts| && run <= ts[i..];
    var rest := ts[i + |run|..];
    assert ts == ts[..i] + run + rest;
    TagsAppend(ts[..i] + run, rest);
    TagsAppend(ts[..i], run);
    ContainsRunSelf(Tags(run));
    ContainsRunAppend(Tags(ts[..i]), Tags(run), Tags(run));
    ContainsRunAppend(Tags(ts[..i]) + Tags(run), Tags(rest), Tags(run));
  }
}
