/** The few Python string operations the blog relies on: `sep.join`,
    `s.split(c)`, whitespace `s.split()` and `'%d' % n`. */
module Text {

  /** `sep.join(parts)`. */
  function Join(sep: string, parts: seq<string>): string
  {
    if |parts| == 0 then ""
    else if |parts| == 1 then parts[0]
    else parts[0] + sep + Join(sep, parts[1..])
  }

  /** `s.split(c)` for a one-character separator: the pieces between the
      occurrences of `c`; there is always one more piece than occurrences. */
  function Split(s: string, c: char): (pieces: seq<string>)
    ensures |pieces| >= 1
    ensures forall i :: 0 <= i < |pieces| ==> c !in pieces[i]
  {
    if s == [] then [""]
    else
      assert s == [s[0]] + s[1..];
      var rest := Split(s[1..], c);
      if s[0] == c then [""] + rest
      else [[s[0]] + rest[0]] + rest[1..]
  }

  /** There is one more piece than there are separators. */
  lemma {:induction false} SplitCount(s: string, c: char)
    ensures |Split(s, c)| == multiset(s)[c] + 1
  {
    if s != [] {
      SplitCount(s[1..], c);
      assert s == [s[0]] + s[1..];
    }
  }

  /** Joining the pieces of a split gives back the string. */
  lemma {:induction false} JoinSplit(s: string, c: char)
    ensures Join([c], Split(s, c)) == s
  {
    if s != [] {
      var rest := Split(s[1..], c);
      JoinSplit(s[1..], c);
      var pieces := Split(s, c);
      if s[0] == c {
        assert pieces == [""] + rest;
        JoinCons([c], "", rest);
        assert Join([c], pieces) == [c] + s[1..];
      } else if |rest| == 1 {
        assert pieces == [[s[0]] + rest[0]];
        assert Join([c], pieces) == [s[0]] + s[1..];
      } else {
        assert pieces == [[s[0]] + rest[0]] + rest[1..];
        JoinCons([c], [s[0]] + rest[0], rest[1..]);
        JoinCons([c], rest[0], rest[1..]);
        assert [rest[0]] + rest[1..] == rest;
        assert Join([c], pieces) == [s[0]] + s[1..];
      }
      assert s == [s[0]] + s[1..];
    }
  }

  lemma JoinCons(sep: string, a: string, t: seq<string>)
    requires |t| >= 1
    ensures Join(sep, [a] + t) == a + sep + Join(sep, t)
  {
    assert ([a] + t)[1..] == t;
  }

  /** Splitting `a + [c] + t` where `a` holds no `c` yields `a` first. */
  lemma {:induction false} SplitCons(a: string, c: char, t: string)
    requires c !in a
    ensures Split(a + [c] + t, c) == [a] + Split(t, c)
  {
    if a != [] {
      assert (a + [c] + t)[1..] == a[1..] + [c] + t;
      SplitCons(a[1..], c, t);
      assert [a[0]] + a[1..] == a;
    } else {
      assert a + [c] + t == [c] + t;
    }
  }

  /** A string without `c` splits into itself. */
  lemma {:induction false} SplitNone(a: string, c: char)
    requires c !in a
    ensures Split(a, c) == [a]
  {
    if a != [] {
      SplitNone(a[1..], c);
      assert [a[0]] + a[1..] == a;
    }
  }

  /** Splitting a join gives back the parts, when no part holds the separator. */
  lemma {:induction false} SplitJoin(parts: seq<string>, c: char)
    requires |parts| >= 1
    requires forall i :: 0 <= i < |parts| ==> c !in parts[i]
    ensures Split(Join([c], parts), c) == parts
  {
    if |parts| == 1 {
      SplitNone(parts[0], c);
    } else {
      SplitJoin(parts[1..], c);
      SplitCons(parts[0], c, Join([c], parts[1..]));
      assert [parts[0]] + parts[1..] == parts;
    }
  }

  /** The characters Python's `str.split()` treats as whitespace. */
  predicate IsSpace(ch: char) {
    || ch == ' ' || ch == '\t' || ch == '\n' || ch == '\r'
    || ch == '\U{b}' || ch == '\U{c}'
    || ('\U{1c}' <= ch <= '\U{1f}')
    || ch == '\U{85}' || ch == '\U{a0}' || ch == '\U{1680}'
    || ('\U{2000}' <= ch <= '\U{200a}')
    || ch == '\U{2028}' || ch == '\U{2029}' || ch == '\U{202f}'
    || ch == '\U{205f}' || ch == '\U{3000}'
  }

  predicate NoSpace(w: string) {
    forall i :: 0 <= i < |w| ==> !IsSpace(w[i])
  }

  /** `s.split()`: the maximal runs of non-whitespace characters. */
  function Words(s: string): (words: seq<string>)
    ensures forall i :: 0 <= i < |words| ==> |words[i]| > 0 && NoSpace(words[i])
    ensures s != [] && !IsSpace(s[0]) ==> |words| > 0 && words[0][0] == s[0]
  {
    if s == [] then []
    else if IsSpace(s[0]) then Words(s[1..])
    else
      var rest := Words(s[1..]);
      if |s| > 1 && !IsSpace(s[1]) then [[s[0]] + rest[0]] + rest[1..]
      else [[s[0]]] + rest
  }

  /** How many positions of `s` start a word, given whether the character
      before `s` was whitespace (or `s` is at the start). */
  function WordStarts(s: string, afterSpace: bool): nat
  {
    if s == [] then 0
    else (if afterSpace && !IsSpace(s[0]) then 1 else 0) + WordStarts(s[1..], IsSpace(s[0]))
  }

  /** The non-whitespace characters of `s`, in order. */
  function Visible(s: string): string
  {
    if s == [] then []
    else if IsSpace(s[0]) then Visible(s[1..])
    else [s[0]] + Visible(s[1..])
  }

  function Concat(words: seq<string>): string
  {
    if words == [] then [] else words[0] + Concat(words[1..])
  }

  /** `s.split()` finds exactly one word per word start, and loses only the
      whitespace. */
  lemma {:induction false} WordsCharacterized(s: string)
    ensures |Words(s)| == WordStarts(s, true)
    ensures Concat(Words(s)) == Visible(s)
  {
    if s != [] {
      WordsCharacterized(s[1..]);
      var rest := Words(s[1..]);
      if IsSpace(s[0]) {
      } else if |s| > 1 && !IsSpace(s[1]) {
        assert WordStarts(s[1..], false) == WordStarts(s[2..], false);
        assert WordStarts(s[1..], true) == 1 + WordStarts(s[2..], false);
        assert Words(s) == [[s[0]] + rest[0]] + rest[1..];
        assert rest == [rest[0]] + rest[1..];
        calc {
          Concat(Words(s));
          ([s[0]] + rest[0]) + Concat(rest[1..]);
          [s[0]] + (rest[0] + Concat(rest[1..]));
          [s[0]] + Concat(rest);
        }
      } else {
        if |s| > 1 {
          assert WordStarts(s[1..], false) == WordStarts(s[2..], true);
          assert WordStarts(s[1..], true) == WordStarts(s[2..], true);
        }
        assert Words(s) == [[s[0]]] + rest;
      }
    }
  }

  /** `'%d' % n` for a non-negative `n`. */
  function Decimal(n: nat): (d: string)
    ensures |d| > 0
    ensures forall i :: 0 <= i < |d| ==> '0' <= d[i] <= '9'
    ensures |d| > 1 ==> d[0] != '0'
  {
    if n < 10 then [Digit(n)] else Decimal(n / 10) + [Digit(n % 10)]
  }

  function Digit(n: nat): (ch: char)
    requires n < 10
  {
    ('0' as int + n) as char
  }

  /** Reading a string of decimal digits. */
  function ParseDecimal(d: string): nat
    requires forall i :: 0 <= i < |d| ==> '0' <= d[i] <= '9'
  {
    if d == [] then 0
    else ParseDecimal(d[..|d| - 1]) * 10 + (d[|d| - 1] as int - '0' as int)
  }

  /** Reading back `'%d' % n` gives `n`. */
  lemma {:induction false} DecimalRoundTrip(n: nat)
    ensures ParseDecimal(Decimal(n)) == n
  {
    if n >= 10 {
      DecimalRoundTrip(n / 10);
      var d := Decimal(n);
      assert d[..|d| - 1] == Decimal(n / 10);
    }
  }
}
