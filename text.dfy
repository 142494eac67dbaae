/**
 * The few String and Array operations of Ruby 1.8 that the filter compiler
 * relies on: `String#downcase` (ASCII only), `String#split(' ')` (awk-style
 * splitting on runs of white space), `String#to_a` (the lines of a string,
 * which is what `Array(s)` gives for a String), `Array#join` and `[x] * n`, plus
 * `Count`, which counts the occurrences of a character and is how the
 * placeholders `?` of a condition are counted.
 */
module Text {

  predicate IsUpper(c: char) { 'A' <= c <= 'Z' }

  /** `downcase` of one character: ASCII letters only. */
  function Lower(c: char): char
  {
    if IsUpper(c) then (c as int + 32) as char else c
  }

  /** `String#downcase`. */
  function Downcase(s: string): (r: string)
    ensures |r| == |s|
    ensures forall i :: 0 <= i < |r| ==> !IsUpper(r[i])
    ensures forall i :: 0 <= i < |s| && !IsUpper(s[i]) ==> r[i] == s[i]
    ensures forall i :: 0 <= i < |s| && IsUpper(s[i]) ==> r[i] as int == s[i] as int + 32
  {
    seq(|s|, i requires 0 <= i < |s| => Lower(s[i]))
  }

  /** The characters `split(' ')` treats as separators. */
  predicate IsSpace(c: char)
  {
    c == ' ' || c == '\t' || c == '\n' || c == '\r' || c == '\U{0B}' || c == '\U{0C}'
  }

  predicate HasNoSpace(s: string)
  {
    forall i :: 0 <= i < |s| ==> !IsSpace(s[i])
  }

  /** What `split(' ')` can produce: non-empty runs without white space. */
  predicate IsWord(w: string)
  {
    |w| > 0 && HasNoSpace(w)
  }

  predicate AllWords(ws: seq<string>)
  {
    forall i :: 0 <= i < |ws| ==> IsWord(ws[i])
  }

  /** `s.split(' ')`: leading, trailing and repeated white space produce no
      empty tokens. */
  function Words(s: string): seq<string>
  {
    Split(s, "")
  }

  /** Splits `s`, where `cur` is the token read so far. */
  function Split(s: string, cur: string): seq<string>
    decreases |s|
  {
    if |s| == 0 then
      (if cur == "" then [] else [cur])
    else if IsSpace(s[0]) then
      (if cur == "" then [] else [cur]) + Split(s[1..], "")
    else
      Split(s[1..], cur + [s[0]])
  }

  /** `String#to_a` in Ruby 1.8: the lines of `s`, each keeping its `\n`;
      the empty string has no lines. */
  function Lines(s: string): seq<string>
  {
    LinesFrom(s, "")
  }

  /** The lines of `s`, where `cur` is the line read so far. */
  function LinesFrom(s: string, cur: string): seq<string>
    decreases |s|
  {
    if |s| == 0 then
      (if cur == "" then [] else [cur])
    else if s[0] == '\n' then
      [cur + "\n"] + LinesFrom(s[1..], "")
    else
      LinesFrom(s[1..], cur + [s[0]])
  }

  /** `Array#join(sep)` on strings. */
  function Join(parts: seq<string>, sep: string): string
  {
    if |parts| == 0 then ""
    else if |parts| == 1 then parts[0]
    else parts[0] + sep + Join(parts[1..], sep)
  }

  /** `[x] * n`. */
  function Copies(x: string, n: nat): seq<string>
  {
    seq(n, _ => x)
  }

  /** All tokens glued together. */
  function Concat(ws: seq<string>): string
  {
    if |ws| == 0 then "" else ws[0] + Concat(ws[1..])
  }

  /** `s` with its white space removed. */
  function NonSpace(s: string): string
  {
    if |s| == 0 then "" else (if IsSpace(s[0]) then "" else [s[0]]) + NonSpace(s[1..])
  }

  /** Number of occurrences of `c` in `s`. */
  function Count(c: char, s: string): nat
  {
    if |s| == 0 then 0 else (if s[0] == c then 1 else 0) + Count(c, s[1..])
  }

  // ---------------------------------------------------------------------
  // downcase

  lemma DowncaseIdempotent(s: string)
    ensures Downcase(Downcase(s)) == Downcase(s)
  {
  }

  /** Lower-casing distributes over concatenation. */
  lemma DowncaseConcat(a: string, b: string)
    ensures Downcase(a + b) == Downcase(a) + Downcase(b)
  {
  }

  // ---------------------------------------------------------------------
  // split(' ')

  lemma {:induction false} SplitYieldsWords(s: string, cur: string)
    requires HasNoSpace(cur)
    ensures AllWords(Split(s, cur))
    decreases |s|
  {
    if |s| == 0 {
    } else if IsSpace(s[0]) {
      SplitYieldsWords(s[1..], "");
    } else {
      assert HasNoSpace(cur + [s[0]]) by {
        forall i | 0 <= i < |cur + [s[0]]| ensures !IsSpace((cur + [s[0]])[i]) {
          if i < |cur| { assert (cur + [s[0]])[i] == cur[i]; }
        }
      }
      SplitYieldsWords(s[1..], cur + [s[0]]);
    }
  }

  /** Every token of `split(' ')` is a non-empty run of non-space characters. */
  lemma WordsAreWords(s: string)
    ensures AllWords(Words(s))
  {
    SplitYieldsWords(s, "");
  }

  lemma {:induction false} ConcatCons(w: string, ws: seq<string>)
    ensures Concat([w] + ws) == w + Concat(ws)
  {
    assert ([w] + ws)[1..] == ws;
  }

  lemma {:induction false} SplitKeepsNonSpace(s: string, cur: string)
    ensures Concat(Split(s, cur)) == cur + NonSpace(s)
    decreases |s|
  {
    if |s| == 0 {
      if cur != "" { ConcatCons(cur, []); }
    } else if IsSpace(s[0]) {
      SplitKeepsNonSpace(s[1..], "");
      assert NonSpace(s) == NonSpace(s[1..]);
      if cur != "" {
        ConcatCons(cur, Split(s[1..], ""));
      } else {
        assert Split(s, cur) == Split(s[1..], "");
      }
    } else {
      SplitKeepsNonSpace(s[1..], cur + [s[0]]);
      assert NonSpace(s) == [s[0]] + NonSpace(s[1..]);
    }
  }

  /** Splitting loses nothing but white space: the tokens, glued back
      together, are the input without its white space. */
  lemma WordsKeepNonSpace(s: string)
    ensures Concat(Words(s)) == NonSpace(s)
  {
    SplitKeepsNonSpace(s, "");
  }

  lemma {:induction false} SplitSkipsWord(w: string, rest: string, cur: string)
    requires HasNoSpace(w)
    ensures Split(w + rest, cur) == Split(rest, cur + w)
    decreases |w|
  {
    if w == [] {
      assert w + rest == rest;
      assert cur + w == cur;
    } else {
      assert (w + rest)[0] == w[0];
      assert (w + rest)[1..] == w[1..] + rest;
      SplitSkipsWord(w[1..], rest, cur + [w[0]]);
      assert cur + [w[0]] + w[1..] == cur + w;
    }
  }

  /** `split(' ')` undoes `join(' ')` on a list of words. */
  lemma {:induction false} WordsOfJoin(ws: seq<string>)
    requires AllWords(ws)
    ensures Words(Join(ws, " ")) == ws
  {
    if |ws| == 0 {
    } else if |ws| == 1 {
      SplitSkipsWord(ws[0], "", "");
      assert ws[0] + "" == ws[0];
      assert "" + ws[0] == ws[0];
    } else {
      var tail := Join(ws[1..], " ");
      assert Join(ws, " ") == ws[0] + (" " + tail);
      SplitSkipsWord(ws[0], " " + tail, "");
      assert "" + ws[0] == ws[0];
      assert (" " + tail)[1..] == tail;
      WordsOfJoin(ws[1..]);
    }
  }

  predicate AllSpace(sp: string)
  {
    forall i :: 0 <= i < |sp| ==> IsSpace(sp[i])
  }

  lemma {:induction false} SplitSkipsSpace(sp: string, rest: string)
    requires AllSpace(sp)
    ensures Split(sp + rest, "") == Split(rest, "")
    decreases |sp|
  {
    if sp != [] {
      assert (sp + rest)[0] == sp[0];
      assert (sp + rest)[1..] == sp[1..] + rest;
      SplitSkipsSpace(sp[1..], rest);
    } else {
      assert sp + rest == rest;
    }
  }

  /** White space before the first word produces no token. */
  lemma WordsSkipSpace(sp: string, rest: string)
    requires AllSpace(sp)
    ensures Words(sp + rest) == Words(rest)
  {
    SplitSkipsSpace(sp, rest);
  }

  /** A word followed by white space is one token, whatever the run of white
      space is. With `WordsSkipSpace` and `Words("") == []`, this fixes
      `split(' ')` on every input: the tokens are the maximal runs of
      non-space characters. */
  lemma WordsOfWordThenSpace(w: string, sp: string, rest: string)
    requires IsWord(w) && |sp| > 0 && AllSpace(sp)
    ensures Words(w + sp + rest) == [w] + Words(rest)
    ensures Words(w) == [w]
  {
    assert w + sp + rest == w + (sp + rest);
    SplitSkipsWord(w, sp + rest, "");
    assert "" + w == w;
    assert (sp + rest)[0] == sp[0];
    assert (sp + rest)[1..] == sp[1..] + rest;
    SplitSkipsSpace(sp[1..], rest);
    SplitSkipsWord(w, "", "");
    assert w + "" == w;
  }

  // ---------------------------------------------------------------------
  // to_a

  lemma {:induction false} LinesFromGlue(s: string, cur: string)
    ensures Concat(LinesFrom(s, cur)) == cur + s
    decreases |s|
  {
    if |s| == 0 {
      if cur != "" { ConcatCons(cur, []); }
    } else if s[0] == '\n' {
      LinesFromGlue(s[1..], "");
      ConcatCons(cur + "\n", LinesFrom(s[1..], ""));
      assert s == "\n" + s[1..];
    } else {
      LinesFromGlue(s[1..], cur + [s[0]]);
      assert s == [s[0]] + s[1..];
    }
  }

  /** The lines glue back into the string. */
  lemma LinesGlue(s: string)
    ensures Concat(Lines(s)) == s
  {
    LinesFromGlue(s, "");
  }

  lemma {:induction false} LinesFromSkipLine(l: string, rest: string, cur: string)
    requires '\n' !in l
    ensures LinesFrom(l + rest, cur) == LinesFrom(rest, cur + l)
    decreases |l|
  {
    if l == [] {
      assert l + rest == rest;
      assert cur + l == cur;
    } else {
      assert l[0] in l;
      assert (l + rest)[0] == l[0];
      assert (l + rest)[1..] == l[1..] + rest;
      assert forall x :: x in l[1..] ==> x in l;
      LinesFromSkipLine(l[1..], rest, cur + [l[0]]);
      assert cur + [l[0]] + l[1..] == cur + l;
    }
  }

  /** `to_a` cuts after every newline and nowhere else; a string without a
      newline is one line, and the empty string none. These fix `Lines` on
      every input. */
  lemma LinesOfLine(l: string, rest: string)
    requires '\n' !in l
    ensures Lines(l + "\n" + rest) == [l + "\n"] + Lines(rest)
    ensures l != "" ==> Lines(l) == [l]
    ensures Lines("") == []
  {
    assert l + "\n" + rest == l + ("\n" + rest);
    LinesFromSkipLine(l, "\n" + rest, "");
    assert "" + l == l;
    assert ("\n" + rest)[1..] == rest;
    LinesFromSkipLine(l, "", "");
    assert l + "" == l;
  }

  // ---------------------------------------------------------------------
  // join and counting

  lemma {:induction false} CountConcat(c: char, a: string, b: string)
    ensures Count(c, a + b) == Count(c, a) + Count(c, b)
  {
    if |a| == 0 {
      assert a + b == b;
    } else {
      assert (a + b)[1..] == a[1..] + b;
      CountConcat(c, a[1..], b);
    }
  }

  /** Joining `n` copies of `x` with `sep` has `n` times the occurrences of
      `c` in `x`, plus those of the `n - 1` separators. */
  lemma {:induction false} CountJoinCopies(c: char, x: string, n: nat, sep: string)
    ensures Count(c, Join(Copies(x, n), sep))
         == n * Count(c, x) + (if n == 0 then 0 else (n - 1) * Count(c, sep))
  {
    var k, j := Count(c, x), Count(c, sep);
    if n == 1 {
      assert Join(Copies(x, n), sep) == x;
    } else if n > 1 {
      var rest := Join(Copies(x, n - 1), sep);
      assert Copies(x, n)[1..] == Copies(x, n - 1);
      assert Join(Copies(x, n), sep) == x + sep + rest;
      CountJoinCopies(c, x, n - 1, sep);
      CountConcat(c, x, sep);
      CountConcat(c, x + sep, rest);
      Distribute(n, k, j);
    }
  }

  lemma Distribute(n: int, k: int, j: int)
    ensures n * k + (n - 1) * j == k + j + ((n - 1) * k + (n - 2) * j)
  {
  }

  /** Joining two non-empty lists is joining their joins. */
  lemma {:induction false} JoinAppend(xs: seq<string>, ys: seq<string>, sep: string)
    requires |xs| > 0 && |ys| > 0
    ensures Join(xs + ys, sep) == Join(xs, sep) + sep + Join(ys, sep)
  {
    if |xs| == 1 {
      assert (xs + ys)[1..] == ys;
    } else {
      assert (xs + ys)[1..] == xs[1..] + ys;
      JoinAppend(xs[1..], ys, sep);
    }
  }

  lemma CopiesAppend(x: string, n: nat, m: nat)
    ensures Copies(x, n + m) == Copies(x, n) + Copies(x, m)
  {
  }
}
