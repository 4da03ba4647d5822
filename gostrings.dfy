/** The few pieces of Go's standard library that the client's string logic is
    built from: strings.TrimSpace, strings.Split and strings.Index with a
    one-character separator, the join that undoes Split, and
    strconv.FormatInt in base 10 on int64 values, with a strict decimal
    reader that accepts exactly the text FormatInt writes. */
module GoStrings {

  import opened Wrappers

  /** Go's int64: every integer flag of the client has this type. */
  newtype int64 = x: int | -0x8000_0000_0000_0000 <= x < 0x8000_0000_0000_0000

  /** unicode.IsSpace: the code points strings.TrimSpace strips. */
  predicate IsSpace(c: char)
  {
    c == ' ' || c == '\t' || c == '\n' || c == '\U{B}' || c == '\U{C}' || c == '\r'
    || c == '\U{85}' || c == '\U{A0}' || c == '\U{1680}'
    || ('\U{2000}' <= c <= '\U{200A}')
    || c == '\U{2028}' || c == '\U{2029}' || c == '\U{202F}' || c == '\U{205F}' || c == '\U{3000}'
  }

  predicate AllSpace(s: string)
  {
    forall k :: 0 <= k < |s| ==> IsSpace(s[k])
  }

  /** s without its leading white space. */
  function TrimLeft(s: string): string
  {
    if |s| > 0 && IsSpace(s[0]) then TrimLeft(s[1..]) else s
  }

  /** s without its trailing white space. */
  function TrimRight(s: string): string
  {
    if |s| > 0 && IsSpace(s[|s| - 1]) then TrimRight(s[..|s| - 1]) else s
  }

  /** strings.TrimSpace. */
  function TrimSpace(s: string): string
  {
    TrimRight(TrimLeft(s))
  }

  lemma {:induction false} TrimLeftDrops(s: string)
    ensures |TrimLeft(s)| <= |s| && TrimLeft(s) == s[|s| - |TrimLeft(s)|..]
    ensures TrimLeft(s) == [] || !IsSpace(TrimLeft(s)[0])
    ensures AllSpace(s[..|s| - |TrimLeft(s)|])
    decreases |s|
  {
    if |s| > 0 && IsSpace(s[0]) {
      TrimLeftDrops(s[1..]);
    }
  }

  lemma {:induction false} TrimRightDrops(s: string)
    ensures |TrimRight(s)| <= |s| && TrimRight(s) == s[..|TrimRight(s)|]
    ensures TrimRight(s) == [] || !IsSpace(TrimRight(s)[|TrimRight(s)| - 1])
    ensures AllSpace(s[|TrimRight(s)|..])
    decreases |s|
  {
    if |s| > 0 && IsSpace(s[|s| - 1]) {
      var p := s[..|s| - 1];
      TrimRightDrops(p);
      var t := TrimRight(p);
      assert TrimRight(s) == t;
      assert t == p[..|t|] == s[..|t|];
      assert s[|t|..] == p[|t|..] + [s[|s| - 1]];
    } else {
      assert s[|s|..] == [];
    }
  }

  /** TrimSpace leaves nothing exactly when s is all white space, and
      otherwise a result that neither starts nor ends with white space. */
  lemma TrimSpaceEnds(s: string)
    ensures TrimSpace(s) == [] <==> AllSpace(s)
    ensures TrimSpace(s) != [] ==> !IsSpace(TrimSpace(s)[0]) && !IsSpace(TrimSpace(s)[|TrimSpace(s)| - 1])
  {
    var l := TrimLeft(s);
    var r := TrimRight(l);
    TrimLeftDrops(s);
    TrimRightDrops(l);
    if r == [] {
      assert l[|r|..] == l;
      assert s[..|s| - |l|] == s;
    } else {
      assert r[0] == l[0];
    }
  }

  /** Trimming adds no character: what s lacks, its trim lacks too. */
  lemma TrimSpaceKeepsOut(s: string, c: char)
    requires c !in s
    ensures c !in TrimSpace(s)
  {
    TrimLeftDrops(s);
    var l := TrimLeft(s);
    assert c !in l;
    TrimRightDrops(l);
    assert TrimRight(l) == l[..|TrimRight(l)|];
  }

  /** A string that neither starts nor ends with white space is its own trim. */
  lemma TrimSpaceUnchanged(s: string)
    requires s == [] || (!IsSpace(s[0]) && !IsSpace(s[|s| - 1]))
    ensures TrimSpace(s) == s
  {
  }

  /** Number of occurrences of c in s. */
  function Count(s: string, c: char): nat
  {
    if |s| == 0 then 0 else (if s[0] == c then 1 else 0) + Count(s[1..], c)
  }

  /** strings.Split(s, string(sep)): the pieces between separators, in order;
      an empty s gives one empty piece, and neighbouring separators give
      empty pieces. */
  function Split(s: string, sep: char): (r: seq<string>)
    ensures |r| >= 1
    ensures forall k :: 0 <= k < |r| ==> sep !in r[k]
    decreases |s|
  {
    if |s| == 0 then [""]
    else
      var rest := Split(s[1..], sep);
      if s[0] == sep then [""] + rest
      else [[s[0]] + rest[0]] + rest[1..]
  }

  /** strings.Join(xs, string(sep)). */
  function Join(xs: seq<string>, sep: char): string
  {
    if |xs| == 0 then "" else if |xs| == 1 then xs[0] else xs[0] + [sep] + Join(xs[1..], sep)
  }

  /** strings.Index(s, string(c)): -1 when c does not occur, otherwise the
      position of its first occurrence. */
  function Index(s: string, c: char): (r: int)
    ensures -1 <= r < |s|
    ensures r == -1 <==> c !in s
    ensures r >= 0 ==> s[r] == c && c !in s[..r]
  {
    if |s| == 0 then -1
    else if s[0] == c then 0
    else
      var k := Index(s[1..], c);
      assert s[1..][..if k < 0 then 0 else k] == s[1..if k < 0 then 1 else k + 1];
      if k < 0 then -1 else k + 1
  }

  /** The first c in a + [c] + b is the one after a when a is free of c. */
  lemma IndexAfter(a: string, c: char, b: string)
    requires c !in a
    ensures Index(a + [c] + b, c) == |a|
  {
    var s := a + [c] + b;
    assert s[|a|] == c;
    assert s[..|a|] == a;
  }

  /** Only the empty string splits into a single empty piece. */
  lemma SplitIsEmptyPiece(s: string, sep: char)
    ensures (Split(s, sep) == [""]) <==> s == ""
  {
    if s != "" && s[0] != sep {
      assert Split(s, sep)[0] == [s[0]] + Split(s[1..], sep)[0];
    }
  }

  /** Splitting yields one more piece than there are separators. */
  lemma {:induction false} SplitCount(s: string, sep: char)
    ensures |Split(s, sep)| == Count(s, sep) + 1
    decreases |s|
  {
    if |s| > 0 {
      SplitCount(s[1..], sep);
    }
  }

  /** Joining the pieces with the separator gives back the split string. */
  lemma {:induction false} JoinSplit(s: string, sep: char)
    ensures Join(Split(s, sep), sep) == s
    decreases |s|
  {
    if |s| > 0 {
      var rest := Split(s[1..], sep);
      JoinSplit(s[1..], sep);
      if s[0] == sep {
        assert ([""] + rest)[1..] == rest;
      } else if |rest| > 1 {
        var xs := [[s[0]] + rest[0]] + rest[1..];
        assert xs[1..] == rest[1..];
        assert Join(rest, sep) == rest[0] + [sep] + Join(rest[1..], sep);
        assert s == [s[0]] + s[1..];
      } else {
        assert s == [s[0]] + s[1..];
      }
    }
  }

  /** A string free of the separator is a single piece. */
  lemma {:induction false} SplitNoSep(a: string, sep: char)
    requires sep !in a
    ensures Split(a, sep) == [a]
    decreases |a|
  {
    if |a| > 0 {
      SplitNoSep(a[1..], sep);
      assert a == [a[0]] + a[1..];
    }
  }

  /** A separator-free prefix followed by a separator becomes the first piece. */
  lemma {:induction false} SplitAfterPiece(a: string, b: string, sep: char)
    requires sep !in a
    ensures Split(a + [sep] + b, sep) == [a] + Split(b, sep)
    decreases |a|
  {
    var s := a + [sep] + b;
    if |a| == 0 {
      assert s[1..] == b;
    } else {
      assert s[1..] == a[1..] + [sep] + b;
      SplitAfterPiece(a[1..], b, sep);
      assert [s[0]] + a[1..] == a;
    }
  }

  /** Splitting a join of separator-free pieces gives the pieces back. */
  lemma {:induction false} SplitJoin(xs: seq<string>, sep: char)
    requires |xs| >= 1
    requires forall k :: 0 <= k < |xs| ==> sep !in xs[k]
    ensures Split(Join(xs, sep), sep) == xs
    decreases |xs|
  {
    if |xs| == 1 {
      SplitNoSep(xs[0], sep);
    } else {
      SplitJoin(xs[1..], sep);
      SplitAfterPiece(xs[0], Join(xs[1..], sep), sep);
      assert [xs[0]] + xs[1..] == xs;
    }
  }

  /** Joining one more piece at the end. */
  lemma {:induction false} JoinSnoc(xs: seq<string>, x: string, sep: char)
    requires |xs| >= 1
    ensures Join(xs + [x], sep) == Join(xs, sep) + [sep] + x
    decreases |xs|
  {
    if |xs| > 1 {
      JoinSnoc(xs[1..], x, sep);
      assert (xs + [x])[1..] == xs[1..] + [x];
    } else {
      assert (xs + [x])[1..] == [x];
    }
  }

  predicate IsDigit(c: char)
  {
    '0' <= c <= '9'
  }

  function DigitChar(d: nat): (c: char)
    requires d < 10
    ensures IsDigit(c) && c as int - '0' as int == d
  {
    ('0' as int + d) as char
  }

  /** Decimal digits of n, most significant first, without leading zeros. */
  function FormatNat(n: nat): (r: string)
    ensures |r| >= 1
    ensures forall k :: 0 <= k < |r| ==> IsDigit(r[k])
    decreases n
  {
    if n < 10 then [DigitChar(n)] else FormatNat(n / 10) + [DigitChar(n % 10)]
  }

  /** strconv.FormatInt(n, 10): an optional minus sign followed by digits. */
  function FormatInt(n: int64): (r: string)
    ensures |r| >= 1
    ensures forall k :: 0 <= k < |r| ==> IsDigit(r[k]) || (k == 0 && r[k] == '-')
    ensures (r[0] == '-') <==> n < 0
  {
    if n < 0 then "-" + FormatNat(-(n as int)) else FormatNat(n as int)
  }

  /** s holds an ASCII capital letter. */
  predicate HasUpper(s: string)
  {
    exists k :: 0 <= k < |s| && 'A' <= s[k] <= 'Z'
  }

  /** The value of a string of decimal digits. */
  function DigitsValue(s: string): nat
  {
    if |s| == 0 then 0
    else
      var d := s[|s| - 1] as int - '0' as int;
      DigitsValue(s[..|s| - 1]) * 10 + (if 0 <= d < 10 then d else 0)
  }

  /** Decimal digits as strconv writes them: at least one digit, and no
      leading zero unless the number is zero itself. */
  predicate CanonicalDigits(s: string)
  {
    |s| >= 1 && (forall k :: 0 <= k < |s| ==> IsDigit(s[k])) && (|s| == 1 || s[0] != '0')
  }

  /** Reading a natural number back: only canonical digit strings are numbers. */
  function ParseNat(s: string): Option<nat>
  {
    if CanonicalDigits(s) then Some(DigitsValue(s)) else None
  }

  /** Reading an optionally signed decimal back: a minus sign must be
      followed by a non-zero natural number. */
  function ParseInt(s: string): Option<int>
  {
    if |s| > 0 && s[0] == '-' then
      match ParseNat(s[1..])
      case Some(n) => if n > 0 then Some(-(n as int)) else None
      case None => None
    else
      match ParseNat(s)
      case Some(n) => Some(n as int)
      case None => None
  }

  lemma {:induction false} DigitsValueFormat(n: nat)
    ensures DigitsValue(FormatNat(n)) == n
    decreases n
  {
    if n >= 10 {
      DigitsValueFormat(n / 10);
      var r := FormatNat(n);
      assert r[..|r| - 1] == FormatNat(n / 10);
    }
  }

  /** FormatNat writes no leading zero. */
  lemma {:induction false} FormatNatCanonical(n: nat)
    ensures CanonicalDigits(FormatNat(n))
    ensures n >= 1 ==> FormatNat(n)[0] != '0'
    decreases n
  {
    if n >= 10 {
      FormatNatCanonical(n / 10);
      assert FormatNat(n)[0] == FormatNat(n / 10)[0];
    }
  }

  /** A canonical string that does not start with '0' has a positive value. */
  lemma {:induction false} LeadingDigitPositive(s: string)
    requires CanonicalDigits(s) && s[0] != '0'
    ensures DigitsValue(s) >= 1
    decreases |s|
  {
    if |s| > 1 {
      var t := s[..|s| - 1];
      assert t[0] == s[0];
      LeadingDigitPositive(t);
    }
  }

  /** Canonical digits are exactly what FormatNat writes for their value. */
  lemma {:induction false} FormatDigitsValue(s: string)
    requires CanonicalDigits(s)
    ensures FormatNat(DigitsValue(s)) == s
    decreases |s|
  {
    var d := s[|s| - 1] as int - '0' as int;
    if |s| == 1 {
      assert DigitsValue(s) == DigitsValue(s[..0]) * 10 + d;
      assert DigitChar(d) == s[0];
    } else {
      var t := s[..|s| - 1];
      assert t[0] == s[0];
      FormatDigitsValue(t);
      LeadingDigitPositive(t);
      var v := DigitsValue(s);
      assert v == DigitsValue(t) * 10 + d;
      assert v / 10 == DigitsValue(t) && v % 10 == d;
      assert DigitChar(d) == s[|s| - 1];
      assert s == t + [s[|s| - 1]];
    }
  }

  /** FormatInt loses nothing: its text reads back as the same number. */
  lemma ParseFormatInt(n: int64)
    ensures ParseInt(FormatInt(n)) == Some(n as int)
  {
    if n < 0 {
      DigitsValueFormat(-(n as int));
      FormatNatCanonical(-(n as int));
      assert FormatInt(n)[1..] == FormatNat(-(n as int));
    } else {
      DigitsValueFormat(n as int);
      FormatNatCanonical(n as int);
    }
  }

  /** The reader accepts nothing but what FormatInt writes: a string that
      reads back as n is FormatInt(n). */
  lemma FormatParseInt(s: string, n: int64)
    requires ParseInt(s) == Some(n as int)
    ensures s == FormatInt(n)
  {
    if |s| > 0 && s[0] == '-' {
      FormatDigitsValue(s[1..]);
      assert s == "-" + s[1..];
    } else {
      FormatDigitsValue(s);
    }
  }

  /** The characters URL building treats as delimiters never occur in a
      formatted number. */
  lemma FormatIntHasNoDelimiter(n: int64)
    ensures '&' !in FormatInt(n) && '/' !in FormatInt(n) && '=' !in FormatInt(n) && '?' !in FormatInt(n)
  {
    var r := FormatInt(n);
    forall k | 0 <= k < |r| ensures r[k] != '&' && r[k] != '/' && r[k] != '=' && r[k] != '?' {
    }
  }
}
