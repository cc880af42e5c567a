/** The Python string operations the gateway relies on: `str.split` on one
    separator, `str.replace(" ", "")`, the `in` substring test, and `int()`
    applied to a string. */
module Strings {
  import opened Wrappers

  /** How many times `c` occurs in `s`. */
  function Count(s: string, c: char): nat {
    if s == [] then 0 else (if s[0] == c then 1 else 0) + Count(s[1..], c)
  }

  /** `s.split(sep)` for a one-character separator: the pieces between
      separators, with an empty piece at either end when `s` starts or ends
      with `sep`; `"".split(sep)` is `[""]`. */
  function Split(s: string, sep: char): (parts: seq<string>)
    ensures |parts| == Count(s, sep) + 1
    ensures forall p :: p in parts ==> sep !in p
  {
    if s == [] then [""]
    else
      var rest := Split(s[1..], sep);
      if s[0] == sep then [""] + rest
      else [[s[0]] + rest[0]] + rest[1..]
  }

  /** `sep.join(parts)`. */
  function Join(parts: seq<string>, sep: char): string {
    if parts == [] then ""
    else if |parts| == 1 then parts[0]
    else parts[0] + [sep] + Join(parts[1..], sep)
  }

  /** Joining the pieces gives back the string. */
  lemma {:induction false} JoinSplit(s: string, sep: char)
    ensures Join(Split(s, sep), sep) == s
  {
    if s != [] {
      var rest := Split(s[1..], sep);
      JoinSplit(s[1..], sep);
      if s[0] == sep {
        assert ([""] + rest)[1..] == rest;
        assert s == [s[0]] + s[1..];
      } else if |rest| == 1 {
        assert s == [s[0]] + s[1..];
      } else {
        var parts := [[s[0]] + rest[0]] + rest[1..];
        assert parts[1..] == rest[1..];
        assert Join(rest, sep) == rest[0] + [sep] + Join(rest[1..], sep);
        assert s == [s[0]] + s[1..];
      }
    }
  }

  /** Splitting a joined sequence of separator-free pieces gives back the
      pieces. */
  lemma {:induction false} SplitJoin(parts: seq<string>, sep: char)
    requires |parts| > 0
    requires forall p :: p in parts ==> sep !in p
    ensures Split(Join(parts, sep), sep) == parts
  {
    if |parts| == 1 {
      SplitFree(parts[0], sep);
    } else {
      var tail := Join(parts[1..], sep);
      var t := [sep] + tail;
      assert forall p :: p in parts[1..] ==> p in parts;
      SplitJoin(parts[1..], sep);
      assert parts[0] in parts;
      SplitAfterFree(parts[0], t, sep);
      assert parts[0] + [sep] + tail == parts[0] + t;
      assert t[1..] == tail;
      assert Split(t, sep) == [""] + parts[1..];
      assert Split(t, sep)[0] == "";
      assert Split(t, sep)[1..] == parts[1..];
      assert parts[0] + "" == parts[0];
      assert [parts[0]] + parts[1..] == parts;
    }
  }

  lemma {:induction false} SplitFree(p: string, sep: char)
    requires sep !in p
    ensures Split(p, sep) == [p]
  {
    if p != [] {
      SplitFree(p[1..], sep);
      assert p == [p[0]] + p[1..];
    }
  }

  /** A separator-free prefix glues onto the first piece of what follows. */
  lemma {:induction false} SplitAfterFree(p: string, t: string, sep: char)
    requires sep !in p
    ensures Split(p + t, sep) == [p + Split(t, sep)[0]] + Split(t, sep)[1..]
  {
    if p != [] {
      var s := p + t;
      assert s[1..] == p[1..] + t;
      assert s[0] == p[0] && p[0] != sep;
      SplitAfterFree(p[1..], t, sep);
      var rest := Split(s[1..], sep);
      assert rest == [p[1..] + Split(t, sep)[0]] + Split(t, sep)[1..];
      assert Split(s, sep) == [[s[0]] + rest[0]] + rest[1..];
      assert p == [p[0]] + p[1..];
      assert [p[0]] + (p[1..] + Split(t, sep)[0]) == p + Split(t, sep)[0];
    } else {
      assert p + t == t;
      assert p + Split(t, sep)[0] == Split(t, sep)[0];
      assert [Split(t, sep)[0]] + Split(t, sep)[1..] == Split(t, sep);
    }
  }

  /** `s.replace(" ", "")`. */
  function RemoveSpaces(s: string): (r: string)
    ensures ' ' !in r
  {
    if s == [] then []
    else (if s[0] == ' ' then [] else [s[0]]) + RemoveSpaces(s[1..])
  }

  /** Removing spaces distributes over concatenation. */
  lemma {:induction false} RemoveSpacesAppend(a: string, b: string)
    ensures RemoveSpaces(a + b) == RemoveSpaces(a) + RemoveSpaces(b)
  {
    if a == [] {
      assert a + b == b;
    } else {
      assert (a + b)[1..] == a[1..] + b;
      RemoveSpacesAppend(a[1..], b);
    }
  }

  /** A string is left alone exactly when it has no space. */
  lemma {:induction false} RemoveSpacesIdentity(s: string)
    ensures RemoveSpaces(s) == s <==> ' ' !in s
  {
    if s != [] {
      RemoveSpacesIdentity(s[1..]);
      assert s == [s[0]] + s[1..];
    }
  }

  /** A prefix without spaces survives removal unchanged. */
  lemma RemoveSpacesAfter(prefix: string, s: string)
    requires ' ' !in prefix
    ensures RemoveSpaces(prefix + s) == prefix + RemoveSpaces(s)
  {
    RemoveSpacesAppend(prefix, s);
    RemoveSpacesIdentity(prefix);
  }

  /** Removing the one space between two space-free words joins them. */
  lemma OneSpaceRemoved(a: string, b: string)
    requires ' ' !in a && ' ' !in b
    ensures RemoveSpaces(a + " " + b) == a + b
  {
    assert a + " " + b == (a + " ") + b;
    RemoveSpacesAppend(a + " ", b);
    RemoveSpacesAfter(a, " ");
    assert RemoveSpaces(" ") == [] + RemoveSpaces(" "[1..]);
    assert " "[1..] == [];
    assert a + [] == a;
    RemoveSpacesIdentity(b);
  }

  /** The `in` test on strings, `sub in s`. */
  predicate Contains(s: string, sub: string) {
    sub <= s || (s != [] && Contains(s[1..], sub))
  }

  /** `sub in s` holds exactly when `sub` occurs somewhere in `s`, not only
      at its start. */
  lemma {:induction false} ContainsIff(s: string, sub: string)
    ensures Contains(s, sub) <==> exists i, j :: 0 <= i <= j <= |s| && s[i..j] == sub
  {
    if sub <= s {
      assert s[0..|sub|] == sub;
    } else if s == [] {
      assert forall i, j :: 0 <= i <= j <= |s| ==> s[i..j] == [];
    } else {
      ContainsIff(s[1..], sub);
      if Contains(s[1..], sub) {
        var i, j :| 0 <= i <= j <= |s[1..]| && s[1..][i..j] == sub;
        assert s[i + 1..j + 1] == sub;
      } else {
        forall i, j | 0 <= i <= j <= |s| ensures s[i..j] != sub {
          if i == 0 {
            assert s[i..j] <= s;
          } else {
            assert forall k :: 0 <= k < j - i ==> s[i..j][k] == s[1..][i - 1..j - 1][k];
            assert s[i..j] == s[1..][i - 1..j - 1];
          }
        }
      }
    }
  }

  /** The characters `int()` skips around a number (the ASCII ones among
      Python's whitespace). */
  predicate IsSpace(c: char) {
    c == ' ' || c == '\t' || c == '\n' || c == '\r' || c == '\U{B}' || c == '\U{C}'
      || '\U{1C}' <= c <= '\U{1F}'
  }

  predicate IsDigit(c: char) {
    '0' <= c <= '9'
  }

  function TrimStart(s: string): string {
    if s != [] && IsSpace(s[0]) then TrimStart(s[1..]) else s
  }

  function TrimEnd(s: string): string {
    if s != [] && IsSpace(s[|s| - 1]) then TrimEnd(s[..|s| - 1]) else s
  }

  /** The value of a string of decimal digits. */
  function DigitsValue(d: string): int
    requires forall k :: 0 <= k < |d| ==> IsDigit(d[k])
  {
    if d == [] then 0
    else DigitsValue(d[..|d| - 1]) * 10 + (d[|d| - 1] as int - '0' as int)
  }

  /** The value of a non-empty string of decimal digits, or `None`. */
  function Digits(d: string): Option<int> {
    if d != [] && forall k :: 0 <= k < |d| ==> IsDigit(d[k]) then Some(DigitsValue(d)) else None
  }

  /** `int(s)` for a string: optional surrounding whitespace, an optional
      sign and at least one decimal digit; anything else raises, which is
      `None` here. */
  function ParseInt(s: string): Option<int> {
    var t := TrimEnd(TrimStart(s));
    if t != [] && t[0] == '-' then
      match Digits(t[1..])
      case Some(n) => Some(-n)
      case None => None
    else if t != [] && t[0] == '+' then
      Digits(t[1..])
    else
      Digits(t)
  }

  /** `str(n)` for a natural number. */
  function NatToString(n: nat): (r: string)
    ensures r != [] && forall k :: 0 <= k < |r| ==> IsDigit(r[k])
  {
    if n < 10 then [('0' as int + n) as char]
    else NatToString(n / 10) + [('0' as int + n % 10) as char]
  }

  /** `str(n)` for an integer. */
  function IntToString(n: int): string {
    if n < 0 then "-" + NatToString(-n) else NatToString(n)
  }

  lemma {:induction false} DigitsOfNat(n: nat)
    ensures DigitsValue(NatToString(n)) == n
  {
    if n >= 10 {
      DigitsOfNat(n / 10);
      var r := NatToString(n);
      assert r[..|r| - 1] == NatToString(n / 10);
    }
  }

  /** `int(str(n)) == n`: a number written out in decimal reads back as
      itself. */
  lemma ParseIntOfDecimal(n: int)
    ensures ParseInt(IntToString(n)) == Some(n)
  {
    var s := IntToString(n);
    var d := NatToString(if n < 0 then -n else n);
    DigitsOfNat(if n < 0 then -n else n);
    assert !IsSpace(s[0]) && !IsSpace(s[|s| - 1]);
    assert TrimEnd(TrimStart(s)) == s;
    if n < 0 {
      assert s[1..] == d;
    }
  }
}
