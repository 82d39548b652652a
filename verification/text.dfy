/** Whitespace trimming as the serializers' character fields apply it (`trim_whitespace`, Python's
    `str.strip()` with no argument) before checking blankness and length. */
module Text {

  /** Python's `str.isspace` for one character: the characters `str.strip()` removes. */
  predicate IsSpace(c: char) {
    || c == ' ' || '\t' <= c <= '\r' || '\U{1c}' <= c <= '\U{1f}'
    || c == '\U{85}' || c == '\U{a0}' || c == '\U{1680}' || '\U{2000}' <= c <= '\U{200a}'
    || c == '\U{2028}' || c == '\U{2029}' || c == '\U{202f}' || c == '\U{205f}' || c == '\U{3000}'
  }

  predicate AllSpace(s: string) {
    forall i :: 0 <= i < |s| ==> IsSpace(s[i])
  }

  /** Neither end is whitespace: what `strip()` leaves. */
  predicate Trimmed(s: string) {
    s == [] || (!IsSpace(s[0]) && !IsSpace(s[|s| - 1]))
  }

  /** `strip()`: drops whitespace from both ends, leaving text with whitespace on neither end that is
      empty exactly when `s` is all whitespace. */
  function Trim(s: string): (t: string)
    ensures |t| <= |s|
    ensures Trimmed(t)
    ensures t == [] <==> AllSpace(s)
    decreases |s|
  {
    if s != [] && IsSpace(s[0]) then
      assert AllSpace(s) <==> AllSpace(s[1..]) by {
        if AllSpace(s[1..]) {
          forall i | 0 < i < |s| ensures IsSpace(s[i]) { assert s[i] == s[1..][i - 1]; }
        }
      }
      Trim(s[1..])
    else if s != [] && IsSpace(s[|s| - 1]) then
      assert AllSpace(s) <==> AllSpace(s[..|s| - 1]) by {
        if AllSpace(s[..|s| - 1]) {
          forall i | 0 <= i < |s| - 1 ensures IsSpace(s[i]) { assert s[i] == s[..|s| - 1][i]; }
        }
      }
      Trim(s[..|s| - 1])
    else
      s
  }

  /** `strip()` is determined by what it keeps: whitespace around a core with whitespace on neither end
      is exactly what it removes. */
  lemma {:induction false} TrimExact(p: string, t: string, q: string)
    requires AllSpace(p) && AllSpace(q) && Trimmed(t)
    ensures Trim(p + t + q) == t
    decreases |p| + |q|
  {
    var s := p + t + q;
    if p != [] {
      assert s[0] == p[0];
      assert s[1..] == p[1..] + t + q;
      TrimExact(p[1..], t, q);
    } else if q != [] {
      assert s == t + q;
      assert s[|s| - 1] == q[|q| - 1];
      if t != [] {
        assert s[0] == t[0];
      } else {
        assert s == q;
      }
      if t == [] && q != [] {
        assert s[0] == q[0];
        assert s[1..] == [] + [] + q[1..];
        TrimExact([], [], q[1..]);
      } else {
        assert s[..|s| - 1] == [] + t + q[..|q| - 1];
        TrimExact([], t, q[..|q| - 1]);
      }
    } else {
      assert s == t;
    }
  }

  /** Stripping only removes whitespace: any other character occurs in the stripped text exactly when
      it occurs in the original. */
  lemma {:induction false} TrimKeeps(s: string, c: char)
    requires !IsSpace(c)
    ensures c in Trim(s) <==> c in s
    decreases |s|
  {
    if s != [] && IsSpace(s[0]) {
      TrimKeeps(s[1..], c);
      assert s == [s[0]] + s[1..];
    } else if s != [] && IsSpace(s[|s| - 1]) {
      TrimKeeps(s[..|s| - 1], c);
      assert s == s[..|s| - 1] + [s[|s| - 1]];
    }
  }

  /** Stripping is idempotent. */
  lemma TrimTwice(s: string)
    ensures Trim(Trim(s)) == Trim(s)
  {
    assert Trim(s) == [] + Trim(s) + [];
    TrimExact([], Trim(s), []);
  }
}
