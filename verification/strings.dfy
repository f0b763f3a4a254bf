/** The string operations the Python code relies on: the ordering `<` used by
    `sorted`, the substring test `in`, and `str.strip()`. */
module Strings {

  /** Python's `a < b` on `str`: lexicographic comparison of code points,
      where a proper prefix comes first. */
  predicate Below(a: string, b: string)
  {
    if |b| == 0 then false
    else if |a| == 0 then true
    else if a[0] == b[0] then Below(a[1..], b[1..])
    else a[0] < b[0]
  }

  /** Python's `a <= b` on `str`. */
  predicate AtMost(a: string, b: string)
  {
    a == b || Below(a, b)
  }

  lemma {:induction false} BelowIrreflexive(a: string)
    ensures !Below(a, a)
  {
    if |a| > 0 {
      BelowIrreflexive(a[1..]);
    }
  }

  lemma {:induction false} BelowTransitive(a: string, b: string, c: string)
    requires Below(a, b) && Below(b, c)
    ensures Below(a, c)
  {
    if |a| > 0 && a[0] == b[0] && b[0] == c[0] {
      BelowTransitive(a[1..], b[1..], c[1..]);
    }
  }

  /** Any two strings are equal or ordered one way round, and never both ways. */
  lemma {:induction false} BelowTrichotomy(a: string, b: string)
    ensures a == b || Below(a, b) || Below(b, a)
    ensures !(Below(a, b) && Below(b, a))
  {
    if |a| > 0 && |b| > 0 && a[0] == b[0] {
      BelowTrichotomy(a[1..], b[1..]);
      if a[1..] == b[1..] {
        assert a == [a[0]] + a[1..] && b == [b[0]] + b[1..];
      }
    }
  }

  /** `<=` on strings is a total order. */
  lemma AtMostTotalOrder(a: string, b: string, c: string)
    ensures AtMost(a, a)
    ensures AtMost(a, b) || AtMost(b, a)
    ensures AtMost(a, b) && AtMost(b, a) ==> a == b
    ensures AtMost(a, b) && AtMost(b, c) ==> AtMost(a, c)
  {
    BelowTrichotomy(a, b);
    if Below(a, b) && Below(b, c) {
      BelowTransitive(a, b, c);
    }
  }

  /** The empty string sorts before, or equal to, every string. */
  lemma EmptyIsLeast(b: string)
    ensures AtMost("", b)
    ensures b != "" ==> Below("", b)
  {
  }

  /** `sub` occurs in `h` starting at index `i`. */
  predicate OccursAt(h: string, sub: string, i: nat)
  {
    i + |sub| <= |h| && h[i..i + |sub|] == sub
  }

  /** Python's `sub in h` for two strings. */
  predicate Contains(h: string, sub: string)
    decreases |h|
  {
    if |sub| > |h| then false
    else if h[..|sub|] == sub then true
    else |h| > 0 && Contains(h[1..], sub)
  }

  /** `Contains` finds exactly the occurrences of `sub` in `h`. */
  lemma {:induction false} ContainsOccurrence(h: string, sub: string)
    ensures Contains(h, sub) <==> exists i: nat :: OccursAt(h, sub, i)
    decreases |h|
  {
    if |sub| > |h| {
    } else if h[..|sub|] == sub {
      assert OccursAt(h, sub, 0);
    } else {
      ContainsOccurrence(h[1..], sub);
      if Contains(h[1..], sub) {
        var i: nat :| OccursAt(h[1..], sub, i);
        assert h[i + 1..i + 1 + |sub|] == h[1..][i..i + |sub|];
        assert OccursAt(h, sub, i + 1);
      } else {
        forall i: nat
          ensures !OccursAt(h, sub, i)
        {
          if i == 0 {
            assert h[0..|sub|] == h[..|sub|];
          } else if i + |sub| <= |h| {
            assert h[1..][i - 1..i - 1 + |sub|] == h[i..i + |sub|];
            assert !OccursAt(h[1..], sub, i - 1);
          }
        }
      }
    }
  }

  /** `sub` is not in `h` when it is longer, or when its first character
      appears nowhere in `h`. */
  lemma NotContained(h: string, sub: string)
    requires |sub| > |h| || (|sub| > 0 && forall k | 0 <= k < |h| :: h[k] != sub[0])
    ensures !Contains(h, sub)
  {
    ContainsOccurrence(h, sub);
    forall i: nat
      ensures !OccursAt(h, sub, i)
    {
      if i + |sub| <= |h| {
        assert h[i..i + |sub|][0] == h[i] != sub[0];
      }
    }
  }

  /** The characters for which Python's `str.isspace()` holds. */
  predicate IsSpace(c: char)
  {
    || c == ' ' || c == '\t' || c == '\n' || c == '\r'
    || c == '\U{000B}' || c == '\U{000C}'
    || ('\U{001C}' <= c <= '\U{001F}')
    || c == '\U{0085}' || c == '\U{00A0}' || c == '\U{1680}'
    || ('\U{2000}' <= c <= '\U{200A}')
    || c == '\U{2028}' || c == '\U{2029}' || c == '\U{202F}'
    || c == '\U{205F}' || c == '\U{3000}'
  }

  /** Python's `s.lstrip()`: the suffix left after dropping leading whitespace. */
  function StripLeft(s: string): (r: string)
    ensures |r| <= |s|
    ensures |r| > 0 ==> !IsSpace(r[0])
  {
    if |s| > 0 && IsSpace(s[0]) then StripLeft(s[1..]) else s
  }

  /** `StripLeft` drops a prefix of whitespace and nothing else. */
  lemma {:induction false} StripLeftDropsSpace(s: string)
    ensures StripLeft(s) == s[|s| - |StripLeft(s)|..]
    ensures forall k | 0 <= k < |s| - |StripLeft(s)| :: IsSpace(s[k])
    decreases |s|
  {
    if |s| > 0 && IsSpace(s[0]) {
      StripLeftDropsSpace(s[1..]);
      assert forall k | 1 <= k < |s| :: s[k] == s[1..][k - 1];
    }
  }

  /** Python's `s.rstrip()`: the prefix left after dropping trailing whitespace. */
  function StripRight(s: string): (r: string)
    ensures |r| <= |s|
    ensures |r| > 0 ==> !IsSpace(r[|r| - 1])
  {
    if |s| > 0 && IsSpace(s[|s| - 1]) then StripRight(s[..|s| - 1]) else s
  }

  /** `StripRight` drops a suffix of whitespace and nothing else. */
  lemma {:induction false} StripRightDropsSpace(s: string)
    ensures StripRight(s) == s[..|StripRight(s)|]
    ensures forall k | |StripRight(s)| <= k < |s| :: IsSpace(s[k])
    decreases |s|
  {
    if |s| > 0 && IsSpace(s[|s| - 1]) {
      StripRightDropsSpace(s[..|s| - 1]);
    }
  }

  /** Every character of `t` is whitespace. */
  predicate Blank(t: string)
  {
    forall k | 0 <= k < |t| :: IsSpace(t[k])
  }

  /** Python's `s.strip()`: `s` without its leading and trailing whitespace. */
  function Strip(s: string): (r: string)
    ensures |r| <= |s|
    ensures |r| > 0 ==> !IsSpace(r[0]) && !IsSpace(r[|r| - 1])
  {
    var l := StripLeft(s);
    StripRightDropsSpace(l);
    StripRight(l)
  }

  /** What `Strip` removes is whitespace on either side: the result is a slice
      of `s` with only whitespace before and after it. */
  lemma StripIsSlice(s: string)
    ensures exists i: nat | i + |Strip(s)| <= |s| ::
              Strip(s) == s[i..i + |Strip(s)|] && Blank(s[..i]) && Blank(s[i + |Strip(s)|..])
  {
    var l := StripLeft(s);
    var r := StripRight(l);
    StripLeftDropsSpace(s);
    StripRightDropsSpace(l);
    var i := |s| - |l|;
    assert Blank(s[..i]);
    assert s[i + |r|..] == l[|r|..];
    assert Strip(s) == s[i..i + |r|];
  }

  /** A string without surrounding whitespace is its own strip. */
  lemma StripPlain(s: string)
    requires |s| == 0 || (!IsSpace(s[0]) && !IsSpace(s[|s| - 1]))
    ensures Strip(s) == s
  {
  }

  /** Stripping twice strips no more than once. */
  lemma StripIdempotent(s: string)
    ensures Strip(Strip(s)) == Strip(s)
  {
    StripPlain(Strip(s));
  }
}
