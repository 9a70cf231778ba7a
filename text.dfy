/** The JavaScript string operations the data service relies on:
    `trim`, `split` on one character, `includes`, deletion of one character
    (`replace(/"/g, '')`), and decimal digits. Strings are sequences of
    characters; every character the source's sheets use is a single UTF-16
    code unit. */
module Text {
  import opened Seqs

  /** The characters `String.prototype.trim` removes: the ECMAScript
      WhiteSpace and LineTerminator characters. */
  predicate IsWhitespace(c: char) {
    || c == '\t' || c == '\n' || c == '\U{000B}' || c == '\U{000C}' || c == '\r'
    || c == ' ' || c == '\U{00A0}' || c == '\U{1680}'
    || ('\U{2000}' <= c <= '\U{200A}')
    || c == '\U{2028}' || c == '\U{2029}' || c == '\U{202F}' || c == '\U{205F}'
    || c == '\U{3000}' || c == '\U{FEFF}'
  }

  /** `s` with its leading whitespace removed: the longest suffix of `s`
      that does not start with whitespace. */
  function TrimStart(s: string): (r: string)
    ensures |r| <= |s| && r == s[|s| - |r|..]
    ensures forall k :: 0 <= k < |s| - |r| ==> IsWhitespace(s[k])
    ensures r != [] ==> !IsWhitespace(r[0])
  {
    if s != [] && IsWhitespace(s[0]) then TrimStart(s[1..]) else s
  }

  /** `s` with its trailing whitespace removed: the longest prefix of `s`
      that does not end with whitespace. */
  function TrimEnd(s: string): (r: string)
    ensures |r| <= |s| && r == s[..|r|]
    ensures forall k :: |r| <= k < |s| ==> IsWhitespace(s[k])
    ensures r != [] ==> !IsWhitespace(r[|r| - 1])
  {
    if s != [] && IsWhitespace(s[|s| - 1]) then TrimEnd(s[..|s| - 1]) else s
  }

  /** `s.trim()`: the infix of `s` left when the whitespace at both ends is
      cut off; it neither starts nor ends with whitespace. */
  function Trim(s: string): (r: string)
    ensures exists i, j ::
      && 0 <= i <= j <= |s| && r == s[i..j]
      && (forall k :: 0 <= k < i ==> IsWhitespace(s[k]))
      && (forall k :: j <= k < |s| ==> IsWhitespace(s[k]))
    ensures r != [] ==> !IsWhitespace(r[0]) && !IsWhitespace(r[|r| - 1])
  {
    var t := TrimStart(s);
    var r := TrimEnd(t);
    var i := |s| - |t|;
    assert r == s[i..i + |r|];
    r
  }

  /** The text is whitespace only. */
  predicate Blank(s: string) {
    forall k :: 0 <= k < |s| ==> IsWhitespace(s[k])
  }

  /** Trimming leaves nothing exactly when the text is whitespace only. */
  lemma BlankTrim(s: string)
    ensures Trim(s) == "" <==> Blank(s)
  {
  }

  /** A string that neither starts nor ends with whitespace is its own trim. */
  lemma TrimIdentity(s: string)
    requires s != [] ==> !IsWhitespace(s[0]) && !IsWhitespace(s[|s| - 1])
    ensures Trim(s) == s
  {
  }

  /** `s.replace(/c/g, '')`: `s` with every `c` deleted. */
  function Remove(s: string, c: char): (r: string)
    ensures c !in r
    ensures |r| == |s| - Count(s, c)
    ensures forall d :: d != c ==> Count(r, d) == Count(s, d)
    ensures Subsequence(r, s)
  {
    var r := Filter(s, d => d != c);
    FilterSubsequence(s, d => d != c);
    forall d ensures Count(r, d) == if d != c then Count(s, d) else 0 {
      FilterMultiplicity(s, d => d != c, d);
    }
    assert |r| == |multiset(r)|;
    CountSum(s, c);
    r
  }

  /** The length of a string is the number of occurrences of `c` plus the
      number of other characters. */
  lemma {:induction false} CountSum(s: string, c: char)
    ensures |Filter(s, d => d != c)| + Count(s, c) == |s|
  {
    if s != [] {
      CountSum(s[1..], c);
    }
  }

  /** Joins `parts` with `sep` between consecutive parts (`parts.join(sep)`). */
  function Join(parts: seq<string>, sep: char): string {
    if |parts| == 0 then []
    else if |parts| == 1 then parts[0]
    else parts[0] + [sep] + Join(parts[1..], sep)
  }

  /** `s.split(sep)` for a one-character separator: the pieces between
      successive separators, one more piece than there are separators, and
      no piece holds the separator. */
  function Split(s: string, sep: char): (parts: seq<string>)
    ensures |parts| == Count(s, sep) + 1
    ensures forall k :: 0 <= k < |parts| ==> sep !in parts[k]
  {
    if s == [] then [[]]
    else
      var rest := Split(s[1..], sep);
      if s[0] == sep then [[]] + rest
      else [[s[0]] + rest[0]] + rest[1..]
  }

  /** Joining the pieces of a split with the separator gives back the text. */
  lemma {:induction false} JoinSplit(s: string, sep: char)
    ensures Join(Split(s, sep), sep) == s
  {
    if s != [] {
      var rest := Split(s[1..], sep);
      JoinSplit(s[1..], sep);
      assert s == [s[0]] + s[1..];
      if s[0] == sep {
        assert Split(s, sep) == [[]] + rest;
        JoinFront([], rest, sep);
        assert [] + [sep] + Join(rest, sep) == s;
      } else {
        assert Split(s, sep) == [[s[0]] + rest[0]] + rest[1..];
        JoinExtendHead(s[0], rest, sep);
        assert [s[0]] + Join(rest, sep) == s;
      }
    }
  }

  /** Joining a part in front of at least one more. */
  lemma JoinFront(p: string, parts: seq<string>, sep: char)
    requires |parts| >= 1
    ensures Join([p] + parts, sep) == p + [sep] + Join(parts, sep)
  {
    assert ([p] + parts)[1..] == parts;
  }

  /** Putting a character in front of the first part puts it in front of
      the joined text. */
  lemma JoinExtendHead(c: char, parts: seq<string>, sep: char)
    requires |parts| >= 1
    ensures Join([[c] + parts[0]] + parts[1..], sep) == [c] + Join(parts, sep)
  {
    if |parts| > 1 {
      JoinFront([c] + parts[0], parts[1..], sep);
      JoinFront(parts[0], parts[1..], sep);
      assert parts == [parts[0]] + parts[1..];
    } else {
      assert [[c] + parts[0]] + parts[1..] == [[c] + parts[0]];
    }
  }

  /** The first piece of a split is the text before the first separator. */
  lemma SplitHead(s: string, sep: char)
    ensures Split(s, sep)[0] <= s
    ensures |Split(s, sep)[0]| < |s| ==> s[|Split(s, sep)[0]|] == sep
  {
    var parts := Split(s, sep);
    JoinSplit(s, sep);
    if |parts| > 1 {
      assert s == parts[0] + [sep] + Join(parts[1..], sep);
    }
  }

  /** Splitting undoes joining when no part holds the separator. */
  lemma {:induction false} SplitJoin(parts: seq<string>, sep: char)
    requires |parts| >= 1
    requires forall k :: 0 <= k < |parts| ==> sep !in parts[k]
    ensures Split(Join(parts, sep), sep) == parts
  {
    if |parts| == 1 {
      SplitFree(parts[0], sep);
    } else {
      SplitJoin(parts[1..], sep);
      SplitPrefix(parts[0], Join(parts[1..], sep), sep);
      assert parts == [parts[0]] + parts[1..];
    }
  }

  /** A string without the separator splits into itself alone. */
  lemma {:induction false} SplitFree(s: string, sep: char)
    requires sep !in s
    ensures Split(s, sep) == [s]
  {
    if s != [] {
      SplitFree(s[1..], sep);
      assert [s[0]] + s[1..] == s;
    }
  }

  /** Splitting a separator-free part, a separator and a tail gives that part
      followed by the pieces of the tail. */
  lemma {:induction false} SplitPrefix(a: string, t: string, sep: char)
    requires sep !in a
    ensures Split(a + [sep] + t, sep) == [a] + Split(t, sep)
  {
    if a == [] {
      assert a + [sep] + t == [sep] + t;
      SplitCons(sep, t, sep);
    } else {
      var u := a[1..] + [sep] + t;
      assert a + [sep] + t == [a[0]] + u;
      assert a[0] != sep && sep !in a[1..] by {
        assert a == [a[0]] + a[1..];
      }
      SplitPrefix(a[1..], t, sep);
      var r := Split(u, sep);
      assert r[0] == a[1..] && r[1..] == Split(t, sep);
      SplitCons(a[0], u, sep);
      assert [a[0]] + r[0] == a;
    }
  }

  /** One character in front: a separator starts a new empty piece, any
      other character joins the first piece. */
  lemma SplitCons(c: char, u: string, sep: char)
    ensures c == sep ==> Split([c] + u, sep) == [[]] + Split(u, sep)
    ensures c != sep ==> Split([c] + u, sep) == [[c] + Split(u, sep)[0]] + Split(u, sep)[1..]
  {
    assert ([c] + u)[1..] == u;
  }

  /** `h.includes(n)`: `n` occurs in `h` as a contiguous piece. */
  predicate Contains(h: string, n: string)
    decreases |h|
  {
    n <= h || (h != [] && Contains(h[1..], n))
  }

  /** `n` occurs in `h` starting at position `i`. */
  predicate OccursAt(h: string, n: string, i: int) {
    0 <= i <= |h| - |n| && h[i..i + |n|] == n
  }

  /** `Contains` agrees with the positional definition of a substring. */
  lemma {:induction false} ContainsAt(h: string, n: string)
    ensures Contains(h, n) <==> exists i :: OccursAt(h, n, i)
  {
    if n <= h {
      assert OccursAt(h, n, 0);
    } else if h != [] {
      ContainsAt(h[1..], n);
      if Contains(h[1..], n) {
        var i :| OccursAt(h[1..], n, i);
        assert h[i + 1..i + 1 + |n|] == h[1..][i..i + |n|];
        assert OccursAt(h, n, i + 1);
      }
      if exists i :: OccursAt(h, n, i) {
        var i :| OccursAt(h, n, i);
        assert i != 0;
        assert h[1..][i - 1..i - 1 + |n|] == h[i..i + |n|];
        assert OccursAt(h[1..], n, i - 1);
      }
    }
  }

  /** A text includes every piece it is built around. */
  lemma ContainsMiddle(a: string, n: string, b: string)
    ensures Contains(a + n + b, n)
  {
    var h := a + n + b;
    assert h[|a|..|a| + |n|] == n;
    assert OccursAt(h, n, |a|);
    ContainsAt(h, n);
  }

  /** An ASCII decimal digit, what `\d` matches in a regular expression
      without the `u` flag. */
  predicate IsDigit(c: char) {
    '0' <= c <= '9'
  }

  predicate AllDigits(s: string) {
    forall k :: 0 <= k < |s| ==> IsDigit(s[k])
  }

  function DigitValue(c: char): nat
    requires IsDigit(c)
  {
    c as int - '0' as int
  }

  /** The number a string of decimal digits denotes (`parseInt`). */
  function DigitsValue(s: string): nat
    requires AllDigits(s)
  {
    if s == [] then 0 else DigitsValue(s[..|s| - 1]) * 10 + DigitValue(s[|s| - 1])
  }

  /** The decimal text of a natural number, as JavaScript writes an integer. */
  function NatToString(n: nat): (s: string)
    ensures s != [] && AllDigits(s)
    ensures |s| > 1 ==> s[0] != '0'
  {
    if n < 10 then ['0' + n as char]
    else NatToString(n / 10) + ['0' + (n % 10) as char]
  }

  /** Reading back the decimal text of a number gives the number. */
  lemma {:induction false} NatToStringValue(n: nat)
    ensures DigitsValue(NatToString(n)) == n
  {
    if n >= 10 {
      NatToStringValue(n / 10);
      var s := NatToString(n);
      assert s[..|s| - 1] == NatToString(n / 10);
    }
  }
}
