/** The few operations of Python's `str` the scripts rely on: `split()` on
    whitespace, `split(sep)` and `sep.join`, `strip()`, `lower()`,
    `replace` of one character and `str` of a natural number. Strings are
    sequences of characters; nothing here normalises or encodes them. */
module Text {

  /** A character Python's `str.isspace` accepts, which is what `split()`
      and `strip()` with no argument remove. */
  predicate IsSpace(c: char) {
    var n := c as int;
    n == 0x20 || 0x09 <= n <= 0x0D || 0x1C <= n <= 0x1F || n == 0x85 || n == 0xA0
    || n == 0x1680 || 0x2000 <= n <= 0x200A || n == 0x2028 || n == 0x2029
    || n == 0x202F || n == 0x205F || n == 0x3000
  }

  /** A non-empty string without whitespace: what `split()` can yield. */
  predicate IsWord(w: string) {
    |w| > 0 && forall i :: 0 <= i < |w| ==> !IsSpace(w[i])
  }

  /** The length of the longest prefix of `s` without whitespace. */
  function WordLength(s: string): (n: nat)
    ensures n <= |s|
    ensures forall i :: 0 <= i < n ==> !IsSpace(s[i])
    ensures n < |s| ==> IsSpace(s[n])
  {
    if |s| == 0 || IsSpace(s[0]) then 0 else 1 + WordLength(s[1..])
  }

  /** `s.split()`: the maximal runs of non-whitespace characters, in order. */
  function Words(s: string): (ws: seq<string>)
    ensures forall i :: 0 <= i < |ws| ==> IsWord(ws[i])
    decreases |s|
  {
    if |s| == 0 then []
    else if IsSpace(s[0]) then Words(s[1..])
    else
      var n := WordLength(s);
      [s[..n]] + Words(s[n..])
  }

  /** `sep.join(ws)`. */
  function Join(ws: seq<string>, sep: string): string {
    if |ws| == 0 then []
    else if |ws| == 1 then ws[0]
    else ws[0] + sep + Join(ws[1..], sep)
  }

  lemma {:induction false} WordLengthPrefix(w: string, rest: string)
    requires forall i :: 0 <= i < |w| ==> !IsSpace(w[i])
    requires |rest| == 0 || IsSpace(rest[0])
    ensures WordLength(w + rest) == |w|
    decreases |w|
  {
    if |w| > 0 {
      assert (w + rest)[1..] == w[1..] + rest;
      WordLengthPrefix(w[1..], rest);
    } else {
      assert w + rest == rest;
    }
  }

  /** A word followed by whitespace (or nothing) is the first token. */
  lemma WordsCons(w: string, rest: string)
    requires IsWord(w)
    requires |rest| == 0 || IsSpace(rest[0])
    ensures Words(w + rest) == [w] + Words(rest)
  {
    WordLengthPrefix(w, rest);
    assert (w + rest)[..|w|] == w;
    assert (w + rest)[|w|..] == rest;
  }

  /** Joining words with a blank and splitting again gives the words back. */
  lemma {:induction false} WordsOfJoin(ws: seq<string>)
    requires forall i :: 0 <= i < |ws| ==> IsWord(ws[i])
    ensures Words(Join(ws, " ")) == ws
    decreases |ws|
  {
    if |ws| == 1 {
      WordsCons(ws[0], []);
      assert ws[0] + [] == ws[0];
    } else if |ws| > 1 {
      var rest := Join(ws[1..], " ");
      assert ws[0] + " " + rest == ws[0] + (" " + rest);
      WordsCons(ws[0], " " + rest);
      assert (" " + rest)[1..] == rest;
      WordsOfJoin(ws[1..]);
      assert ws == [ws[0]] + ws[1..];
    }
  }

  /** Splitting is idempotent: re-joining the tokens of any string with
      blanks and splitting again changes nothing. */
  lemma WordsIdempotent(s: string)
    ensures Words(Join(Words(s), " ")) == Words(s)
  {
    WordsOfJoin(Words(s));
  }

  lemma {:induction false} WordLengthAppend(a: string, rest: string)
    requires |rest| == 0 || IsSpace(rest[0])
    ensures WordLength(a + rest) == WordLength(a)
    decreases |a|
  {
    if |a| == 0 {
      assert a + rest == rest;
    } else if IsSpace(a[0]) {
      assert (a + rest)[0] == a[0];
    } else {
      assert (a + rest)[1..] == a[1..] + rest;
      WordLengthAppend(a[1..], rest);
    }
  }

  /** A blank between two strings separates their words. */
  lemma {:induction false} WordsSpaceAppend(a: string, b: string)
    ensures Words(a + " " + b) == Words(a) + Words(b)
    decreases |a|
  {
    var s := a + " " + b;
    if |a| == 0 {
      assert s[1..] == b;
    } else if IsSpace(a[0]) {
      assert s[1..] == a[1..] + " " + b;
      WordsSpaceAppend(a[1..], b);
    } else {
      var n := WordLength(a);
      assert s == a + (" " + b);
      WordLengthAppend(a, " " + b);
      assert s[..n] == a[..n];
      assert s[n..] == a[n..] + " " + b;
      WordsSpaceAppend(a[n..], b);
    }
  }

  /** The number of words in all of `ps` together. */
  function TotalWords(ps: seq<string>): nat {
    if |ps| == 0 then 0 else |Words(ps[0])| + TotalWords(ps[1..])
  }

  /** Joining phrases with blanks keeps every word of every phrase and
      creates none. */
  lemma {:induction false} WordsOfPhrases(ps: seq<string>)
    ensures |Words(Join(ps, " "))| == TotalWords(ps)
    decreases |ps|
  {
    if |ps| == 1 {
      assert TotalWords(ps[1..]) == 0;
    } else if |ps| > 1 {
      WordsSpaceAppend(ps[0], Join(ps[1..], " "));
      WordsOfPhrases(ps[1..]);
    }
  }

  /** Words joined by a separator without whitespace form one word. */
  lemma {:induction false} JoinIsWord(ws: seq<string>, sep: string)
    requires |ws| >= 1
    requires forall i :: 0 <= i < |ws| ==> IsWord(ws[i])
    requires forall i :: 0 <= i < |sep| ==> !IsSpace(sep[i])
    ensures IsWord(Join(ws, sep))
    decreases |ws|
  {
    if |ws| > 1 {
      JoinIsWord(ws[1..], sep);
      var t := Join(ws[1..], sep);
      var r := ws[0] + sep + t;
      forall i | 0 <= i < |r|
        ensures !IsSpace(r[i])
      {
        if i < |ws[0]| {
          assert r[i] == ws[0][i];
        } else if i < |ws[0]| + |sep| {
          assert r[i] == sep[i - |ws[0]|];
        } else {
          assert r[i] == t[i - |ws[0]| - |sep|];
        }
      }
    }
  }

  /** `s.split(c)`: the pieces between occurrences of `c`; there is always
      one more piece than there are separators. */
  function SplitOn(s: string, c: char): (parts: seq<string>)
    ensures |parts| >= 1
    ensures forall i :: 0 <= i < |parts| ==> c !in parts[i]
    decreases |s|
  {
    if |s| == 0 then [[]]
    else
      var rest := SplitOn(s[1..], c);
      if s[0] == c then [[]] + rest
      else [[s[0]] + rest[0]] + rest[1..]
  }

  lemma JoinConsFirst(x: string, ws: seq<string>, sep: string)
    requires |ws| >= 1
    ensures Join([x + ws[0]] + ws[1..], sep) == x + Join(ws, sep)
  {
    var l := [x + ws[0]] + ws[1..];
    assert l[1..] == ws[1..];
  }

  /** Joining the pieces with the separator rebuilds the string. */
  lemma {:induction false} JoinSplitOn(s: string, c: char)
    ensures Join(SplitOn(s, c), [c]) == s
    decreases |s|
  {
    if |s| > 0 {
      var rest := SplitOn(s[1..], c);
      JoinSplitOn(s[1..], c);
      if s[0] == c {
        var l: seq<string> := [[]] + rest;
        assert l[1..] == rest;
        assert s == [c] + s[1..];
      } else {
        JoinConsFirst([s[0]], rest, [c]);
        assert s == [s[0]] + s[1..];
      }
    }
  }

  lemma {:induction false} SplitOnPrefix(a: string, rest: string, c: char)
    requires c !in a
    ensures SplitOn(a + rest, c) == [a + SplitOn(rest, c)[0]] + SplitOn(rest, c)[1..]
    decreases |a|
  {
    if |a| == 0 {
      assert a + rest == rest;
      assert a + SplitOn(rest, c)[0] == SplitOn(rest, c)[0];
      assert SplitOn(rest, c) == [SplitOn(rest, c)[0]] + SplitOn(rest, c)[1..];
    } else {
      assert (a + rest)[1..] == a[1..] + rest;
      assert (a + rest)[0] == a[0];
      SplitOnPrefix(a[1..], rest, c);
      assert [a[0]] + (a[1..] + SplitOn(rest, c)[0]) == a + SplitOn(rest, c)[0];
    }
  }

  /** Splitting a join of separator-free pieces gives the pieces back. */
  lemma {:induction false} SplitOnJoin(parts: seq<string>, c: char)
    requires |parts| >= 1
    requires forall i :: 0 <= i < |parts| ==> c !in parts[i]
    ensures SplitOn(Join(parts, [c]), c) == parts
    decreases |parts|
  {
    if |parts| == 1 {
      SplitOnPrefix(parts[0], [], c);
      assert parts[0] + [] == parts[0];
    } else {
      var tail := Join(parts[1..], [c]);
      SplitOnJoin(parts[1..], c);
      assert parts[0] + [c] + tail == parts[0] + ([c] + tail);
      assert ([c] + tail)[0] == c && ([c] + tail)[1..] == tail;
      assert SplitOn([c] + tail, c) == [[]] + SplitOn(tail, c);
      SplitOnPrefix(parts[0], [c] + tail, c);
      assert parts[0] + [] == parts[0];
      assert parts == [parts[0]] + parts[1..];
    }
  }

  /** `s.lstrip()`. */
  function StripStart(s: string): (r: string)
    ensures |r| <= |s| && r == s[|s| - |r|..]
    ensures forall i :: 0 <= i < |s| - |r| ==> IsSpace(s[i])
    ensures |r| > 0 ==> !IsSpace(r[0])
    decreases |s|
  {
    if |s| > 0 && IsSpace(s[0]) then StripStart(s[1..]) else s
  }

  /** `s.rstrip()`. */
  function StripEnd(s: string): (r: string)
    ensures |r| <= |s| && r == s[..|r|]
    ensures forall i :: |r| <= i < |s| ==> IsSpace(s[i])
    ensures |r| > 0 ==> !IsSpace(r[|r| - 1])
    decreases |s|
  {
    if |s| > 0 && IsSpace(s[|s| - 1]) then StripEnd(s[..|s| - 1]) else s
  }

  /** `s.strip()`: the part of `s` between its leading and its trailing
      whitespace, which itself neither starts nor ends with whitespace. */
  function Strip(s: string): (r: string)
    ensures |r| > 0 ==> !IsSpace(r[0]) && !IsSpace(r[|r| - 1])
  {
    var t := StripStart(s);
    var r := StripEnd(t);
    assert |r| > 0 ==> r[0] == t[0];
    r
  }

  /** Stripping twice is stripping once. */
  lemma StripIdempotent(s: string)
    ensures Strip(Strip(s)) == Strip(s)
  {
    var r := Strip(s);
    assert StripStart(r) == r;
    assert StripEnd(r) == r;
  }

  lemma {:induction false} WordsOfSpaces(sp: string)
    requires forall i :: 0 <= i < |sp| ==> IsSpace(sp[i])
    ensures Words(sp) == []
    decreases |sp|
  {
    if |sp| > 0 {
      WordsOfSpaces(sp[1..]);
    }
  }

  /** Trailing whitespace adds no word. */
  lemma {:induction false} WordsTrailing(t: string, sp: string)
    requires forall i :: 0 <= i < |sp| ==> IsSpace(sp[i])
    ensures Words(t + sp) == Words(t)
    decreases |t|
  {
    var s := t + sp;
    if |t| == 0 {
      assert s == sp;
      WordsOfSpaces(sp);
    } else if IsSpace(t[0]) {
      assert s[1..] == t[1..] + sp;
      WordsTrailing(t[1..], sp);
    } else {
      var n := WordLength(t);
      WordLengthAppend(t, sp);
      assert s[..n] == t[..n];
      assert s[n..] == t[n..] + sp;
      WordsTrailing(t[n..], sp);
    }
  }

  lemma {:induction false} WordsStripStart(s: string)
    ensures Words(StripStart(s)) == Words(s)
    decreases |s|
  {
    if |s| > 0 && IsSpace(s[0]) {
      WordsStripStart(s[1..]);
    }
  }

  lemma WordsStripEnd(t: string)
    ensures Words(StripEnd(t)) == Words(t)
  {
    var r := StripEnd(t);
    var sp := t[|r|..];
    assert forall i :: 0 <= i < |sp| ==> IsSpace(sp[i]) by {
      forall i | 0 <= i < |sp| ensures sp[i] == t[|r| + i] { }
    }
    assert t == r + sp;
    WordsTrailing(r, sp);
  }

  /** Stripping a line does not change its words. */
  lemma StripWords(s: string)
    ensures Words(Strip(s)) == Words(s)
  {
    WordsStripStart(s);
    WordsStripEnd(StripStart(s));
  }

  /** `c.lower()` for ASCII letters; every other character is unchanged. */
  function LowerChar(c: char): char {
    if 'A' <= c <= 'Z' then (c as int + 32) as char else c
  }

  /** `s.lower()`, ASCII letters only. */
  function Lower(s: string): (r: string)
    ensures |r| == |s|
    ensures forall i :: 0 <= i < |s| ==> r[i] == LowerChar(s[i])
  {
    seq(|s|, i requires 0 <= i < |s| => LowerChar(s[i]))
  }

  /** Lower-casing leaves no upper-case letter behind, keeps whitespace
      exactly where it was, and a second pass changes nothing. */
  lemma LowerProperties(s: string)
    ensures forall i :: 0 <= i < |s| ==> !('A' <= Lower(s)[i] <= 'Z')
    ensures forall i :: 0 <= i < |s| ==> (IsSpace(Lower(s)[i]) <==> IsSpace(s[i]))
    ensures Lower(Lower(s)) == Lower(s)
  {
  }

  /** `s.replace(a, b)` for single characters. */
  function Replace(s: string, a: char, b: char): (r: string)
    ensures |r| == |s|
    ensures forall i :: 0 <= i < |s| ==> r[i] == (if s[i] == a then b else s[i])
  {
    seq(|s|, i requires 0 <= i < |s| => if s[i] == a then b else s[i])
  }

  /** After replacing `a` by a different `b`, no `a` is left and every
      other character is where it was. */
  lemma ReplaceRemoves(s: string, a: char, b: char)
    requires a != b
    ensures a !in Replace(s, a, b)
    ensures forall i :: 0 <= i < |s| && s[i] != a ==> Replace(s, a, b)[i] == s[i]
  {
  }

  predicate IsDigit(c: char) {
    '0' <= c <= '9'
  }

  function Digit(d: nat): (c: char)
    requires d < 10
    ensures IsDigit(c)
  {
    ('0' as int + d) as char
  }

  /** `str(n)` for a natural number: its decimal digits, without leading
      zeros. */
  function NatToString(n: nat): (s: string)
    ensures |s| >= 1
    ensures forall i :: 0 <= i < |s| ==> IsDigit(s[i])
    decreases n
  {
    if n < 10 then [Digit(n)] else NatToString(n / 10) + [Digit(n % 10)]
  }

  function DigitValue(c: char): (d: nat)
    requires IsDigit(c)
    ensures d < 10
  {
    c as int - '0' as int
  }

  /** `int(s)` for a string of decimal digits. */
  function ParseNat(s: string): nat
    requires forall i :: 0 <= i < |s| ==> IsDigit(s[i])
  {
    if |s| == 0 then 0
    else 10 * ParseNat(s[..|s| - 1]) + DigitValue(s[|s| - 1])
  }

  /** Reading back the decimal form of `n` gives `n`. */
  lemma {:induction false} ParseNatToString(n: nat)
    ensures ParseNat(NatToString(n)) == n
    decreases n
  {
    var s := NatToString(n);
    if n >= 10 {
      ParseNatToString(n / 10);
      assert s[..|s| - 1] == NatToString(n / 10);
    }
  }

  /** Different numbers have different decimal forms. */
  lemma NatToStringInjective(m: nat, n: nat)
    requires NatToString(m) == NatToString(n)
    ensures m == n
  {
    ParseNatToString(m);
    ParseNatToString(n);
  }
}
