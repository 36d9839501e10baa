/** The PHP string primitives the query builders rely on: `rtrim` with a
    character list, `implode`, and a character count used to state how many
    `?` placeholders a piece of SQL text holds. */
module PhpText {

  /** The character list PHP's `rtrim($s, $chars)` strips, read literally. */
  function CharSet(chars: string): set<char>
  {
    set c | c in chars
  }

  /** PHP `rtrim`: strips every trailing character that belongs to `chars`.
      It removes characters, not a suffix: the three ensures clauses
      determine the result uniquely. */
  function RTrim(s: string, chars: set<char>): (r: string)
    ensures r <= s
    ensures r == [] || r[|r| - 1] !in chars
    ensures forall i | |r| <= i < |s| :: s[i] in chars
  {
    if s != [] && s[|s| - 1] in chars then RTrim(s[..|s| - 1], chars) else s
  }

  /** PHP `implode($glue, $pieces)`: the pieces with `glue` between
      neighbours, none before the first or after the last. */
  function Implode(glue: string, pieces: seq<string>): string
  {
    if |pieces| == 0 then ""
    else if |pieces| == 1 then pieces[0]
    else Implode(glue, pieces[..|pieces| - 1]) + glue + pieces[|pieces| - 1]
  }

  /** The text a loop builds by appending `piece + sep` for every piece in
      turn: each piece followed by the separator, the last one included. */
  function Terminated(pieces: seq<string>, sep: string): string
  {
    if |pieces| == 0 then ""
    else Terminated(pieces[..|pieces| - 1], sep) + pieces[|pieces| - 1] + sep
  }

  /** The number of occurrences of `c` in `s`. */
  function Count(s: string, c: char): nat
  {
    if s == [] then 0 else Count(s[..|s| - 1], c) + (if s[|s| - 1] == c then 1 else 0)
  }

  /** True when `s` is non-empty and its last character is outside `chars`:
      a trim with `chars` stops at that character. */
  predicate EndsOutside(s: string, chars: set<char>)
  {
    s != [] && s[|s| - 1] !in chars
  }

  /** Trimming a text that ends in characters of the list, preceded by a
      character outside it, gives back exactly the text before them. */
  lemma RTrimStopsAtBody(body: string, tail: string, chars: set<char>)
    requires body == [] || body[|body| - 1] !in chars
    requires forall i | 0 <= i < |tail| :: tail[i] in chars
    ensures RTrim(body + tail, chars) == body
  {
    var s := body + tail;
    if body != [] {
      assert s[|body| - 1] == body[|body| - 1];
    }
    assert forall i | |body| <= i < |s| :: s[i] == tail[i - |body|];
    assert body == s[..|body|];
  }

  /** A loop that appends each piece and the separator produces the
      imploded pieces followed by one separator. */
  lemma {:induction false} TerminatedIsImplodePlusSep(pieces: seq<string>, sep: string)
    requires pieces != []
    ensures Terminated(pieces, sep) == Implode(sep, pieces) + sep
  {
    var n := |pieces|;
    if n == 1 {
      assert Terminated(pieces, sep) == Terminated([], sep) + pieces[0] + sep;
    } else {
      var init := pieces[..n - 1];
      TerminatedIsImplodePlusSep(init, sep);
      calc {
        Terminated(pieces, sep);
        Terminated(init, sep) + pieces[n - 1] + sep;
        Implode(sep, init) + sep + pieces[n - 1] + sep;
        Implode(sep, pieces) + sep;
      }
    }
  }

  /** The last character of an implode is that of its last piece. */
  lemma ImplodeEndsLikeLastPiece(glue: string, pieces: seq<string>)
    requires pieces != [] && pieces[|pieces| - 1] != []
    ensures var s := Implode(glue, pieces);
      s != [] && s[|s| - 1] == pieces[|pieces| - 1][|pieces[|pieces| - 1]| - 1]
  {
  }

  /** Trimming the separator characters off the terminated text recovers
      the implode, provided the separator lies inside the character list
      and the last piece ends outside it. */
  lemma TrimTerminated(pieces: seq<string>, sep: string, chars: set<char>)
    requires pieces == [] || EndsOutside(pieces[|pieces| - 1], chars)
    requires forall i | 0 <= i < |sep| :: sep[i] in chars
    ensures RTrim(Terminated(pieces, sep), chars) == Implode(sep, pieces)
  {
    if pieces != [] {
      TerminatedIsImplodePlusSep(pieces, sep);
      ImplodeEndsLikeLastPiece(sep, pieces);
      RTrimStopsAtBody(Implode(sep, pieces), sep, chars);
    }
  }

  /** Counting distributes over concatenation. */
  lemma {:induction false} CountAppend(a: string, b: string, c: char)
    ensures Count(a + b, c) == Count(a, c) + Count(b, c)
  {
    if b == [] {
      assert a + b == a;
    } else {
      var b' := b[..|b| - 1];
      assert (a + b)[..|a + b| - 1] == a + b';
      assert (a + b)[|a + b| - 1] == b[|b| - 1];
      CountAppend(a, b', c);
    }
  }

  /** A character that does not occur in `s` is counted zero times. */
  lemma {:induction false} CountAbsent(s: string, c: char)
    requires c !in s
    ensures Count(s, c) == 0
  {
    if s != [] {
      assert forall x | x in s[..|s| - 1] :: x in s;
      CountAbsent(s[..|s| - 1], c);
    }
  }

  /** Imploding pieces that each hold `c` exactly once, with a glue that
      does not hold it, yields one occurrence of `c` per piece. */
  lemma {:induction false} CountImplode(glue: string, pieces: seq<string>, c: char)
    requires c !in glue
    requires forall i | 0 <= i < |pieces| :: Count(pieces[i], c) == 1
    ensures Count(Implode(glue, pieces), c) == |pieces|
  {
    var n := |pieces|;
    if n > 1 {
      var init := pieces[..n - 1];
      CountImplode(glue, init, c);
      CountAppend(Implode(glue, init), glue, c);
      CountAppend(Implode(glue, init) + glue, pieces[n - 1], c);
      CountAbsent(glue, c);
    }
  }

  /** Imploding pieces none of which hold `c`, with a glue that does not
      hold it, yields a text without `c`. */
  lemma {:induction false} CountImplodeAbsent(glue: string, pieces: seq<string>, c: char)
    requires c !in glue
    requires forall i | 0 <= i < |pieces| :: c !in pieces[i]
    ensures Count(Implode(glue, pieces), c) == 0
  {
    var n := |pieces|;
    if n == 1 {
      CountAbsent(pieces[0], c);
    } else if n > 1 {
      var init := pieces[..n - 1];
      CountImplodeAbsent(glue, init, c);
      CountAppend(Implode(glue, init), glue, c);
      CountAppend(Implode(glue, init) + glue, pieces[n - 1], c);
      CountAbsent(glue, c);
      CountAbsent(pieces[n - 1], c);
    }
  }
}
