/** The string operations the wire formats use. */
module Text {

  // ---------------------------------------------------------------- decimal numbers

  predicate IsDigit(c: char) {
    '0' <= c <= '9'
  }

  predicate AllDigits(s: string) {
    forall i :: 0 <= i < |s| ==> IsDigit(s[i])
  }

  function Digit(n: nat): char
    requires n < 10
  {
    '0' + n as char
  }

  function Value(c: char): nat
    requires IsDigit(c)
  {
    (c - '0') as nat
  }

  /** A number as it is printed. */
  function Decimal(n: nat): string {
    if n < 10 then [Digit(n)] else Decimal(n / 10) + [Digit(n % 10)]
  }

  /** The number a run of digits reads as. */
  function Number(s: string): nat
    requires AllDigits(s)
  {
    if s == [] then 0 else 10 * Number(s[..|s| - 1]) + Value(s[|s| - 1])
  }

  lemma {:induction false} DecimalIsDigits(n: nat)
    ensures Decimal(n) != [] && AllDigits(Decimal(n))
  {
    if n >= 10 {
      DecimalIsDigits(n / 10);
    }
  }

  lemma {:induction false} DecimalReadsBack(n: nat)
    ensures AllDigits(Decimal(n)) && Number(Decimal(n)) == n
  {
    DecimalIsDigits(n);
    if n >= 10 {
      DecimalReadsBack(n / 10);
      assert Decimal(n)[..|Decimal(n)| - 1] == Decimal(n / 10);
    } else {
      assert Decimal(n)[..0] == [];
    }
  }

  // ---------------------------------------------------------------- splitting

  /** `s.split(c)`. */
  function Split(s: string, c: char): (parts: seq<string>)
    ensures parts != []
  {
    if s == [] then [[]]
    else if s[0] == c then [[]] + Split(s[1..], c)
    else
      var rest := Split(s[1..], c);
      [[s[0]] + rest[0]] + rest[1..]
  }

  lemma {:induction false} SplitFirst(a: string, c: char, b: string)
    requires c !in a
    ensures Split(a + [c] + b, c) == [a] + Split(b, c)
  {
    var s := a + [c] + b;
    if a == [] {
      assert s[1..] == b;
    } else {
      assert s[1..] == a[1..] + [c] + b;
      assert s[0] == a[0];
      SplitFirst(a[1..], c, b);
      assert [a[0]] + a[1..] == a;
    }
  }

  lemma {:induction false} SplitNothing(a: string, c: char)
    requires c !in a
    ensures Split(a, c) == [a]
  {
    if a != [] {
      SplitNothing(a[1..], c);
      assert [a[0]] + a[1..] == a;
    }
  }

  /** Where `sep` first occurs in `s`, or |s|. */
  function Find(s: string, sep: string): (i: nat)
    ensures i <= |s|
  {
    if sep <= s || s == [] then if sep <= s then 0 else |s| else 1 + Find(s[1..], sep)
  }

  lemma {:induction false} FindFirst(a: string, sep: string, b: string)
    requires sep != [] && sep[0] !in a
    ensures Find(a + sep + b, sep) == |a|
  {
    var s := a + sep + b;
    if a == [] {
      assert s == sep + b;
    } else {
      assert s[0] == a[0] && a[0] in a;
      assert !(sep <= s);
      assert s[1..] == a[1..] + sep + b;
      FindFirst(a[1..], sep, b);
    }
  }

  /** `s.partition(sep)`: before, whether the separator is there, after. */
  function Partition(s: string, sep: string): (string, bool, string)
    requires sep != []
  {
    var i := Find(s, sep);
    if i + |sep| <= |s| && s[i..i + |sep|] == sep then (s[..i], true, s[i + |sep|..]) else (s, false, "")
  }

  lemma PartitionAt(a: string, sep: string, b: string)
    requires sep != [] && sep[0] !in a
    ensures Partition(a + sep + b, sep) == (a, true, b)
  {
    FindFirst(a, sep, b);
    var s := a + sep + b;
    assert s[|a|..|a| + |sep|] == sep;
    assert s[..|a|] == a && s[|a| + |sep|..] == b;
  }

  /** Without the separator there is nothing to part. */
  lemma PartitionNowhere(s: string, sep: string)
    requires |sep| == 1 && sep[0] !in s
    ensures Partition(s, sep) == (s, false, "")
  {
    FindNowhere(s, sep);
  }

  lemma {:induction false} FindNowhere(s: string, sep: string)
    requires |sep| == 1 && sep[0] !in s
    ensures Find(s, sep) == |s|
  {
    if s != [] {
      assert s[0] in s;
      FindNowhere(s[1..], sep);
    }
  }

  // ---------------------------------------------------------------- trimming

  /** `c.isspace()`. */
  predicate IsSpace(c: char) {
    || '\t' <= c <= '\r' || '\U{1C}' <= c <= ' ' || c == '\U{85}' || c == '\U{A0}' || c == '\U{1680}'
    || '\U{2000}' <= c <= '\U{200A}' || c == '\U{2028}' || c == '\U{2029}'
    || c == '\U{202F}' || c == '\U{205F}' || c == '\U{3000}'
  }

  /** `s.strip()`. */
  function Strip(s: string): string
    decreases |s|
  {
    if s == [] then []
    else if IsSpace(s[0]) then Strip(s[1..])
    else if IsSpace(s[|s| - 1]) then Strip(s[..|s| - 1])
    else s
  }

  lemma NothingToStrip(s: string)
    requires forall i :: 0 <= i < |s| ==> !IsSpace(s[i])
    ensures Strip(s) == s
  {
  }

  ghost predicate AllSpace(s: string) {
    forall i :: 0 <= i < |s| ==> IsSpace(s[i])
  }

  /** White space goes from both ends, and only from there. */
  lemma {:induction false} StripsBothEnds(before: string, s: string, after: string)
    requires AllSpace(before) && AllSpace(after)
    requires s != "" ==> !IsSpace(s[0]) && !IsSpace(s[|s| - 1])
    ensures Strip(before + s + after) == s
    decreases |before| + |after|
  {
    var all := before + s + after;
    if before != "" {
      assert all[0] == before[0] && all[1..] == before[1..] + s + after;
      StripsBothEnds(before[1..], s, after);
    } else if after != "" {
      assert all[|all| - 1] == after[|after| - 1] && all[..|all| - 1] == before + s + after[..|after| - 1];
      if s == "" {
        assert all == after && all[1..] == "" + s + after[1..];
        StripsBothEnds("", s, after[1..]);
      } else {
        assert all[0] == s[0];
        StripsBothEnds(before, s, after[..|after| - 1]);
      }
    } else {
      assert all == s;
    }
  }
}
