/** The string operations the services share, on ASCII text: strip, lower, comparison and numbers in decimal. */
module Text {
  predicate IsSpace(c: char) {
    c == ' ' || '\t' <= c <= '\r'
  }

  function LowerChar(c: char): char {
    if 'A' <= c <= 'Z' then 'a' + (c - 'A') else c
  }

  function UpperChar(c: char): char {
    if 'a' <= c <= 'z' then 'A' + (c - 'a') else c
  }

  function Upper(s: string): string {
    seq(|s|, i requires 0 <= i < |s| => UpperChar(s[i]))
  }

  function Lower(s: string): (r: string)
    ensures |r| == |s| && forall i :: 0 <= i < |s| ==> r[i] == LowerChar(s[i])
  {
    seq(|s|, i requires 0 <= i < |s| => LowerChar(s[i]))
  }

  function TrimLeft(s: string): string {
    if s != "" && IsSpace(s[0]) then TrimLeft(s[1..]) else s
  }

  function TrimRight(s: string): string {
    if s != "" && IsSpace(s[|s| - 1]) then TrimRight(s[..|s| - 1]) else s
  }

  function Strip(s: string): string { TrimRight(TrimLeft(s)) }

  /** No blank at either end. */
  predicate Stripped(s: string) {
    s != "" ==> !IsSpace(s[0]) && !IsSpace(s[|s| - 1])
  }

  lemma {:induction false} TrimRightTrims(s: string)
    ensures TrimRight(s) <= s
    ensures TrimRight(s) != "" ==> !IsSpace(TrimRight(s)[|TrimRight(s)| - 1])
    ensures (s == "" || !IsSpace(s[|s| - 1])) ==> TrimRight(s) == s
  {
    if s != "" && IsSpace(s[|s| - 1]) { TrimRightTrims(s[..|s| - 1]); }
  }

  lemma {:induction false} TrimLeftTrims(s: string)
    ensures TrimLeft(s) != "" ==> !IsSpace(TrimLeft(s)[0])
    ensures (s == "" || !IsSpace(s[0])) ==> TrimLeft(s) == s
  {
    if s != "" && IsSpace(s[0]) { TrimLeftTrims(s[1..]); }
  }

  /** Stripping leaves no blank at either end, and text without any is left alone. */
  lemma StripStrips(s: string)
    ensures Stripped(Strip(s))
    ensures Stripped(s) ==> Strip(s) == s
  {
    TrimLeftTrims(s);
    TrimRightTrims(TrimLeft(s));
  }

  lemma {:induction false} TrimLeftCuts(s: string) returns (i: nat)
    ensures i <= |s| && TrimLeft(s) == s[i..] && forall k :: 0 <= k < i ==> IsSpace(s[k])
  {
    if s != "" && IsSpace(s[0]) {
      var n := TrimLeftCuts(s[1..]);
      i := n + 1;
      forall k | 0 <= k < i ensures IsSpace(s[k]) {
        if k > 0 { assert s[1..][k - 1] == s[k]; }
      }
    } else {
      i := 0;
    }
  }

  lemma {:induction false} TrimRightCuts(s: string) returns (j: nat)
    ensures j <= |s| && TrimRight(s) == s[..j] && forall k :: j <= k < |s| ==> IsSpace(s[k])
  {
    if s != "" && IsSpace(s[|s| - 1]) {
      j := TrimRightCuts(s[..|s| - 1]);
      forall k | j <= k < |s| ensures IsSpace(s[k]) {
        if k < |s| - 1 { assert s[..|s| - 1][k] == s[k]; }
      }
    } else {
      j := |s|;
    }
  }

  /** Stripping cuts off blanks at both ends, and nothing else. */
  lemma StripCuts(s: string) returns (i: nat, j: nat)
    ensures i <= j <= |s| && Strip(s) == s[i..j]
    ensures forall k :: 0 <= k < i || j <= k < |s| ==> IsSpace(s[k])
  {
    i := TrimLeftCuts(s);
    var tail := s[i..];
    var n := TrimRightCuts(tail);
    j := i + n;
    assert tail[..n] == s[i..j];
    forall k | j <= k < |s| ensures IsSpace(s[k]) { assert tail[k - i] == s[k]; }
  }

  /** Text is blank when it consists of blanks. */
  lemma BlankIff(s: string)
    ensures Strip(s) == "" <==> forall k :: 0 <= k < |s| ==> IsSpace(s[k])
  {
    var i, j := StripCuts(s);
    StripStrips(s);
    if i < j { assert s[i..j][0] == s[i]; }
  }

  lemma LowerTwice(s: string)
    ensures Lower(Lower(s)) == Lower(s)
  {
  }

  lemma {:induction false} TrimRightLower(s: string)
    ensures TrimRight(Lower(s)) == Lower(TrimRight(s))
  {
    if s != "" {
      assert Lower(s)[..|s| - 1] == Lower(s[..|s| - 1]);
      TrimRightLower(s[..|s| - 1]);
    }
  }

  lemma {:induction false} TrimLeftLower(s: string)
    ensures TrimLeft(Lower(s)) == Lower(TrimLeft(s))
  {
    if s != "" {
      assert Lower(s)[1..] == Lower(s[1..]);
      TrimLeftLower(s[1..]);
    }
  }

  /** Stripping and lowering commute. */
  lemma StripLower(s: string)
    ensures Strip(Lower(s)) == Lower(Strip(s))
  {
    TrimLeftLower(s);
    TrimRightLower(TrimLeft(s));
  }

  /** How codes and categories are compared. */
  function Norm(s: string): string { Lower(Strip(s)) }

  lemma NormTwice(s: string)
    ensures Norm(Norm(s)) == Norm(s)
  {
    StripLower(Strip(s));
    StripStrips(s);
    StripStrips(Strip(s));
    LowerTwice(Strip(s));
  }

  /** Lexicographic order by code point. */
  predicate Less(a: string, b: string) {
    b != "" && (a == "" || a[0] < b[0] || (a[0] == b[0] && Less(a[1..], b[1..])))
  }

  lemma {:induction false} LessIsTotal(a: string, b: string)
    ensures Less(a, b) || Less(b, a) || a == b
    ensures !(Less(a, b) && Less(b, a))
  {
    if a != "" && b != "" && a[0] == b[0] {
      LessIsTotal(a[1..], b[1..]);
      assert a == [a[0]] + a[1..] && b == [b[0]] + b[1..];
    }
  }

  lemma {:induction false} LessIsTransitive(a: string, b: string, c: string)
    requires Less(a, b) && Less(b, c)
    ensures Less(a, c)
  {
    if a != "" && a[0] == b[0] == c[0] { LessIsTransitive(a[1..], b[1..], c[1..]); }
  }

  /** One text comes before another when it is the beginning of it or has the lesser character where they first differ. */
  lemma {:induction false} LessIff(a: string, b: string)
    ensures Less(a, b)
            <==> exists k: nat :: k <= |a| && k < |b| && a[..k] == b[..k] && (k == |a| || a[k] < b[k])
  {
    if b == "" || a == "" {
      assert b != "" ==> a[..0] == b[..0];
    } else if a[0] != b[0] {
      assert a[..0] == b[..0];
      forall k: nat | k <= |a| && 0 < k < |b| ensures a[..k] != b[..k] {
        assert a[..k][0] == a[0] && b[..k][0] == b[0];
      }
    } else {
      LessIff(a[1..], b[1..]);
      LaterDifference(a, b);
    }
  }

  lemma LaterDifference(a: string, b: string)
    requires a != "" && b != "" && a[0] == b[0]
    ensures (exists k: nat :: k <= |a| && k < |b| && a[..k] == b[..k] && (k == |a| || a[k] < b[k]))
            <==> exists k: nat :: k <= |a[1..]| && k < |b[1..]| && a[1..][..k] == b[1..][..k] && (k == |a[1..]| || a[1..][k] < b[1..][k])
  {
    if k: nat :| k <= |a| && k < |b| && a[..k] == b[..k] && (k == |a| || a[k] < b[k]) {
      assert k > 0 && a[1..][..k - 1] == a[..k][1..] == b[1..][..k - 1];
    }
    if k: nat :| k <= |a[1..]| && k < |b[1..]| && a[1..][..k] == b[1..][..k] && (k == |a[1..]| || a[1..][k] < b[1..][k]) {
      assert a[..k + 1] == [a[0]] + a[1..][..k] && b[..k + 1] == [b[0]] + b[1..][..k];
    }
  }

  function Digit(d: nat): char
    requires d < 10
  {
    '0' + d as char
  }

  /** A natural number in decimal. */
  function Decimal(n: nat): (s: string)
    ensures s != "" && forall i :: 0 <= i < |s| ==> '0' <= s[i] <= '9'
  {
    if n < 10 then [Digit(n)] else Decimal(n / 10) + [Digit(n % 10)]
  }

  lemma {:induction false} DecimalIsInjective(a: nat, b: nat)
    requires Decimal(a) == Decimal(b)
    ensures a == b
  {
    var s := Decimal(a);
    DigitIsInjective(a % 10, b % 10);
    if a >= 10 && b >= 10 {
      assert s[..|s| - 1] == Decimal(a / 10) && s[..|s| - 1] == Decimal(b / 10);
      DecimalIsInjective(a / 10, b / 10);
    }
  }

  lemma DigitIsInjective(d: nat, e: nat)
    requires d < 10 && e < 10
    ensures Digit(d) == Digit(e) ==> d == e
  {
  }

  /** Text is told apart at its first colon. */
  lemma {:induction false} SplitAtColon(a: string, x: string, b: string, y: string)
    requires ':' !in a && ':' !in b && a + ":" + x == b + ":" + y
    ensures a == b && x == y
  {
    var s, t := a + ":" + x, b + ":" + y;
    if a == "" || b == "" {
      assert s[0] == t[0];
      assert a == "" ==> s[0] == ':';
      assert b == "" ==> t[0] == ':';
      assert s[1..] == x && t[1..] == y;
    } else {
      assert s[0] == a[0] && t[0] == b[0];
      assert s[1..] == a[1..] + ":" + x && t[1..] == b[1..] + ":" + y;
      SplitAtColon(a[1..], x, b[1..], y);
      assert a == [a[0]] + a[1..] && b == [b[0]] + b[1..];
    }
  }

  /** Text that ends in a colon and a number tells the number. */
  lemma NumberAtEnd(x: string, i: nat, y: string, j: nat)
    requires x + ":" + Decimal(i) == y + ":" + Decimal(j)
    ensures i == j
  {
    var s, a, b := x + ":" + Decimal(i), Decimal(i), Decimal(j);
    assert s[|s| - |a|..] == a && s[|s| - |a| - 1] == ':';
    assert s[|s| - |b|..] == b && s[|s| - |b| - 1] == ':';
    forall k | |s| - |a| <= k < |s| ensures s[k] != ':' { assert s[k] == a[k - (|s| - |a|)]; }
    forall k | |s| - |b| <= k < |s| ensures s[k] != ':' { assert s[k] == b[k - (|s| - |b|)]; }
    DecimalIsInjective(i, j);
  }
}
