/** The Python string operations the bot relies on: `str.isspace`, `str.lower`,
    `str.strip`, the substring test `k in t`, `sep.join(l)`, `s.split('\n')`
    and `str(n)` for an integer. Strings are `seq<char>`. */
module Strings {

  /** Python's `str.isspace` for one character: the ASCII controls 9-13 and
      28-31, the space, and the Unicode separators Python counts as white space. */
  predicate IsSpace(c: char)
  {
    var n := c as int;
    (9 <= n <= 13) || (28 <= n <= 32) || n == 0x85 || n == 0xA0 || n == 0x1680 ||
    (0x2000 <= n <= 0x200A) || n == 0x2028 || n == 0x2029 || n == 0x202F ||
    n == 0x205F || n == 0x3000
  }

  predicate IsUpper(c: char)
  {
    'A' <= c <= 'Z'
  }

  function LowerChar(c: char): char
  {
    if IsUpper(c) then (c as int + 32) as char else c
  }

  /** No ASCII capital letter anywhere in `s`. */
  predicate NoUpper(s: string)
  {
    forall i :: 0 <= i < |s| ==> !IsUpper(s[i])
  }

  /** `s.lower()`, for the ASCII letters: each capital becomes its small letter, every
      other character stays as it is. */
  function Lower(s: string): (r: string)
    ensures |r| == |s| && NoUpper(r)
    ensures forall i :: 0 <= i < |s| ==>
              (!IsUpper(s[i]) ==> r[i] == s[i]) &&
              (IsUpper(s[i]) ==> 'a' <= r[i] <= 'z' && r[i] as int == s[i] as int + 32)
    ensures forall i :: 0 <= i < |s| ==> IsSpace(r[i]) == IsSpace(s[i])
  {
    seq(|s|, i requires 0 <= i < |s| => LowerChar(s[i]))
  }

  lemma LowerOfLower(s: string)
    requires NoUpper(s)
    ensures Lower(s) == s
  {
  }

  /** `s.lstrip()`: the longest suffix of `s` that does not start with white space. */
  function TrimLeft(s: string): (r: string)
    ensures |r| <= |s| && r == s[|s| - |r|..]
    ensures r == [] || !IsSpace(r[0])
    decreases |s|
  {
    if s != [] && IsSpace(s[0]) then TrimLeft(s[1..]) else s
  }

  /** Everything `lstrip` removes is white space. */
  lemma {:induction false} TrimLeftRemovesSpace(s: string)
    ensures forall i :: 0 <= i < |s| - |TrimLeft(s)| ==> IsSpace(s[i])
    decreases |s|
  {
    if s != [] && IsSpace(s[0]) {
      TrimLeftRemovesSpace(s[1..]);
      forall i | 1 <= i < |s| - |TrimLeft(s)|
        ensures IsSpace(s[i])
      {
        assert s[i] == s[1..][i - 1];
      }
    }
  }

  /** `s.rstrip()`: the longest prefix of `s` that does not end with white space. */
  function TrimRight(s: string): (r: string)
    ensures |r| <= |s| && r == s[..|r|]
    ensures r == [] || !IsSpace(r[|r| - 1])
    decreases |s|
  {
    if s != [] && IsSpace(s[|s| - 1]) then TrimRight(s[..|s| - 1]) else s
  }

  /** Everything `rstrip` removes is white space. */
  lemma {:induction false} TrimRightRemovesSpace(s: string)
    ensures forall i :: |TrimRight(s)| <= i < |s| ==> IsSpace(s[i])
    decreases |s|
  {
    if s != [] && IsSpace(s[|s| - 1]) {
      TrimRightRemovesSpace(s[..|s| - 1]);
      forall i | |TrimRight(s)| <= i < |s| - 1
        ensures IsSpace(s[i])
      {
        assert s[i] == s[..|s| - 1][i];
      }
    }
  }

  /** `s.strip()`. */
  function Strip(s: string): string
  {
    TrimRight(TrimLeft(s))
  }

  /** True when `s` neither starts nor ends with white space. */
  predicate Stripped(s: string)
  {
    s == [] || (!IsSpace(s[0]) && !IsSpace(s[|s| - 1]))
  }

  /** Stripping removes exactly the surrounding white space and nothing else: the result
      sits in `s` at `i`, everything before `i` and after the result is white space, and the
      result itself neither starts nor ends with white space. */
  lemma StripShape(s: string)
    ensures Stripped(Strip(s))
    ensures var i := |s| - |TrimLeft(s)|;
            OccursAt(s, Strip(s), i) &&
            (forall j :: 0 <= j < i ==> IsSpace(s[j])) &&
            (forall j :: i + |Strip(s)| <= j < |s| ==> IsSpace(s[j]))
  {
    StripStripped(s);
    StripOccurs(s);
    TrimLeftRemovesSpace(s);
    StripTrailing(s);
  }

  /** `Strip(s)` neither starts nor ends with white space. */
  lemma StripStripped(s: string)
    ensures Stripped(Strip(s))
  {
    var l := TrimLeft(s);
    var r := TrimRight(l);
    if r != [] {
      assert r[0] == l[0];
    }
  }

  /** `Strip(s)` sits in `s` right after the leading white space. */
  lemma StripOccurs(s: string)
    ensures OccursAt(s, Strip(s), |s| - |TrimLeft(s)|)
  {
    var l := TrimLeft(s);
    var r := TrimRight(l);
    var i := |s| - |l|;
    assert s[i..i + |r|] == r by {
      assert l == s[i..] && r == l[..|r|];
      assert s[i..i + |r|] == s[i..][..|r|];
    }
    assert r == Strip(s);
  }

  /** Only white space follows `Strip(s)` in `s`. */
  lemma StripTrailing(s: string)
    ensures forall j :: |s| - |TrimLeft(s)| + |Strip(s)| <= j < |s| ==> IsSpace(s[j])
  {
    var l := TrimLeft(s);
    var i := |s| - |l|;
    TrimRightRemovesSpace(l);
    forall j | i + |TrimRight(l)| <= j < |s|
      ensures IsSpace(s[j])
    {
      assert s[j] == l[j - i];
    }
  }

  /** A character of `Strip(s)` is a character of `s`. */
  lemma StripKeepsChars(s: string, c: char)
    requires c in Strip(s)
    ensures c in s
  {
    var l := TrimLeft(s);
    var r := TrimRight(l);
    var j :| 0 <= j < |r| && r[j] == c;
    assert l[j] == c;
    assert s[|s| - |l| + j] == c;
  }

  /** A string without surrounding white space is left as it is. */
  lemma {:induction false} StripFixed(s: string)
    requires Stripped(s)
    ensures Strip(s) == s
  {
    if s != [] {
      assert TrimLeft(s) == s;
      assert TrimRight(s) == s;
    }
  }

  lemma StripIdempotent(s: string)
    ensures Strip(Strip(s)) == Strip(s)
  {
    StripShape(s);
    StripFixed(Strip(s));
  }

  /** `k` occurs in `t` starting at index `i`. */
  ghost predicate OccursAt(t: string, k: string, i: int)
  {
    0 <= i && i + |k| <= |t| && t[i..i + |k|] == k
  }

  /** What a text-mode read returns for file content `s`: every `\r\n` and every other
      `\r` becomes `\n` (Python's universal newlines). */
  function Universal(s: string): (r: string)
    ensures '\r' !in r
    decreases |s|
  {
    if s == [] then []
    else if s[0] == '\r' then
      if |s| >= 2 && s[1] == '\n' then "\n" + Universal(s[2..]) else "\n" + Universal(s[1..])
    else [s[0]] + Universal(s[1..])
  }

  /** Content without a carriage return reads back as it was written. */
  lemma {:induction false} UniversalFixed(s: string)
    requires '\r' !in s
    ensures Universal(s) == s
    decreases |s|
  {
    if s != [] {
      UniversalFixed(s[1..]);
      assert [s[0]] + s[1..] == s;
    }
  }

  /** A `\r\n` pair, and a `\r` not followed by `\n`, each read back as one `\n`; the text
      before them is left alone. */
  lemma {:induction false} UniversalReturn(a: string, b: string)
    requires '\r' !in a
    ensures Universal(a + "\r\n" + b) == a + "\n" + Universal(b)
    ensures (b == [] || b[0] != '\n') ==> Universal(a + "\r" + b) == a + "\n" + Universal(b)
    decreases |a|
  {
    var crlf := a + "\r\n" + b;
    var cr := a + "\r" + b;
    if a == [] {
      assert crlf[0] == '\r' && crlf[1] == '\n' && crlf[2..] == b;
      assert cr[0] == '\r' && cr[1..] == b;
    } else {
      assert crlf[0] == a[0] && crlf[1..] == a[1..] + "\r\n" + b;
      assert cr[0] == a[0] && cr[1..] == a[1..] + "\r" + b;
      UniversalReturn(a[1..], b);
      assert [a[0]] + (a[1..] + "\n" + Universal(b)) == a + "\n" + Universal(b);
    }
  }

  /** Python's `k in t` for two strings. */
  function Contains(t: string, k: string): bool
    decreases |t|
  {
    |k| <= |t| && (t[..|k|] == k || (t != [] && Contains(t[1..], k)))
  }

  /** `k in t` holds exactly when `k` occurs somewhere in `t`. */
  lemma {:induction false} ContainsIff(t: string, k: string)
    ensures Contains(t, k) <==> exists i :: OccursAt(t, k, i)
    decreases |t|
  {
    if |k| <= |t| && t[..|k|] == k {
      assert OccursAt(t, k, 0);
    } else if |k| <= |t| && t != [] {
      ContainsIff(t[1..], k);
      if Contains(t[1..], k) {
        var i :| OccursAt(t[1..], k, i);
        assert t[i + 1..i + 1 + |k|] == t[1..][i..i + |k|];
        assert OccursAt(t, k, i + 1);
      }
      if i :| OccursAt(t, k, i) {
        assert i != 0;
        assert t[1..][i - 1..i - 1 + |k|] == t[i..i + |k|];
        assert OccursAt(t[1..], k, i - 1);
      }
    }
  }

  /** A string holding a character that `t` lacks is not in `t`. */
  lemma MissingCharNotContained(t: string, k: string, j: int)
    requires 0 <= j < |k| && k[j] !in t
    ensures !Contains(t, k)
  {
    ContainsIff(t, k);
  }

  /** `sep.join(l)`. */
  function Join(l: seq<string>, sep: string): string
  {
    if |l| == 0 then ""
    else if |l| == 1 then l[0]
    else l[0] + sep + Join(l[1..], sep)
  }

  /** Every element of `l` occurs in `sep.join(l)`. */
  lemma {:induction false} JoinMentions(l: seq<string>, sep: string, j: int)
    requires 0 <= j < |l|
    ensures exists p :: OccursAt(Join(l, sep), l[j], p)
    decreases |l|
  {
    var s := Join(l, sep);
    if j == 0 {
      assert s[0..|l[0]|] == l[0];
      assert OccursAt(s, l[0], 0);
    } else {
      JoinMentions(l[1..], sep, j - 1);
      var p :| OccursAt(Join(l[1..], sep), l[1..][j - 1], p);
      var off := |l[0]| + |sep|;
      assert s == l[0] + sep + Join(l[1..], sep);
      assert s[off + p..off + p + |l[j]|] == Join(l[1..], sep)[p..p + |l[j]|];
      assert OccursAt(s, l[j], off + p);
    }
  }

  /** `s.split('\n')`: the pieces between line feeds, of which there is always one more
      than there are line feeds. */
  function SplitLines(s: string): (r: seq<string>)
    ensures |r| >= 1
    ensures forall j :: 0 <= j < |r| ==> '\n' !in r[j]
    decreases |s|
  {
    if s == [] then [""]
    else
      var rest := SplitLines(s[1..]);
      if s[0] == '\n' then [""] + rest else [[s[0]] + rest[0]] + rest[1..]
  }

  /** A string without a line feed is a single line. */
  lemma {:induction false} SplitSingle(a: string)
    requires '\n' !in a
    ensures SplitLines(a) == [a]
    decreases |a|
  {
    if a != [] {
      SplitSingle(a[1..]);
      assert [a[0]] + a[1..] == a;
    }
  }

  /** Splitting stops at the first line feed. */
  lemma {:induction false} SplitAfterLine(a: string, b: string)
    requires '\n' !in a
    ensures SplitLines(a + "\n" + b) == [a] + SplitLines(b)
    decreases |a|
  {
    var s := a + "\n" + b;
    if a == [] {
      assert s[1..] == b;
    } else {
      assert s[1..] == a[1..] + "\n" + b;
      SplitAfterLine(a[1..], b);
      assert [a[0]] + a[1..] == a;
    }
  }

  /** Splitting on line feeds undoes joining with line feeds. */
  lemma {:induction false} SplitJoin(l: seq<string>)
    requires |l| >= 1
    requires forall j :: 0 <= j < |l| ==> '\n' !in l[j]
    ensures SplitLines(Join(l, "\n")) == l
    decreases |l|
  {
    if |l| == 1 {
      SplitSingle(l[0]);
    } else {
      SplitAfterLine(l[0], Join(l[1..], "\n"));
      SplitJoin(l[1..]);
      assert [l[0]] + l[1..] == l;
    }
  }

  function DigitChar(d: nat): (c: char)
    requires d < 10
    ensures '0' <= c <= '9'
  {
    ('0' as int + d) as char
  }

  predicate AllDigits(s: string)
  {
    forall i :: 0 <= i < |s| ==> '0' <= s[i] <= '9'
  }

  /** `str(n)` for a natural number: decimal, no leading zeros. */
  function ShowNat(n: nat): (r: string)
    ensures |r| >= 1 && AllDigits(r)
  {
    if n < 10 then [DigitChar(n)] else ShowNat(n / 10) + [DigitChar(n % 10)]
  }

  /** `str(n)` for an integer: a minus sign for a negative number, then digits. */
  function ShowInt(n: int): (r: string)
    ensures |r| >= 1 && (r[0] == '-' || '0' <= r[0] <= '9')
    ensures forall i :: 1 <= i < |r| ==> '0' <= r[i] <= '9'
  {
    if n < 0 then "-" + ShowNat(-n) else ShowNat(n)
  }

  /** `int(s)` for a string of decimal digits. */
  function ParseNat(s: string): nat
    requires AllDigits(s)
  {
    if s == [] then 0 else ParseNat(s[..|s| - 1]) * 10 + (s[|s| - 1] as int - '0' as int)
  }

  /** `int(s)` for what `str` prints for an integer. */
  function ParseInt(s: string): int
    requires s != []
    requires AllDigits(if s[0] == '-' then s[1..] else s)
  {
    if s[0] == '-' then -(ParseNat(s[1..]) as int) else ParseNat(s)
  }

  lemma {:induction false} ParseShowNat(n: nat)
    ensures ParseNat(ShowNat(n)) == n
  {
    if n >= 10 {
      var s := ShowNat(n);
      assert s[..|s| - 1] == ShowNat(n / 10);
      ParseShowNat(n / 10);
    }
  }

  /** Reading back what `str` printed for an integer gives that integer. */
  lemma ParseShowInt(n: int)
    ensures ShowInt(n) != [] && ParseInt(ShowInt(n)) == n
  {
    if n < 0 {
      assert ShowInt(n)[1..] == ShowNat(-n);
      ParseShowNat(-n);
    } else {
      ParseShowNat(n);
    }
  }

  /** Two integers print alike only when they are equal. */
  lemma ShowIntInjective(a: int, b: int)
    ensures ShowInt(a) == ShowInt(b) <==> a == b
  {
    ParseShowInt(a);
    ParseShowInt(b);
  }

  /** What `str` prints for an integer has no surrounding white space. */
  lemma ShowIntStripped(n: int)
    ensures Strip(ShowInt(n)) == ShowInt(n)
  {
    var s := ShowInt(n);
    assert !IsSpace(s[0]) && !IsSpace(s[|s| - 1]);
    StripFixed(s);
  }

  /** What `str` prints for an integer holds no carriage return. */
  lemma ShowIntNoReturn(n: int)
    ensures '\r' !in ShowInt(n)
  {
    var s := ShowInt(n);
    forall j | 0 <= j < |s|
      ensures s[j] != '\r'
    {
      assert s[j] == '-' || '0' <= s[j] <= '9';
    }
  }

  /** A text-mode read of what `str` printed for an integer, stripped, gives it back. */
  lemma ShowIntReadsBack(n: int)
    ensures Strip(Universal(ShowInt(n))) == ShowInt(n)
  {
    ShowIntNoReturn(n);
    UniversalFixed(ShowInt(n));
    ShowIntStripped(n);
  }
}
