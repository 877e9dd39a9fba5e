/** The few Foundation string operations the geofence code relies on, over
    `seq<char>`: substring search (`contains`), deletion of every occurrence
    (`replacingOccurrences(of: p, with: "")`) and trimming with the
    `.whitespaces` character set. */
module Text {

  /** `p` occurs in `s` starting at index `i`. */
  predicate OccursAt(s: string, p: string, i: nat)
  {
    i + |p| <= |s| && s[i..i + |p|] == p
  }

  lemma OccursInTail(s: string, p: string, i: nat)
    requires |s| > 0
    ensures OccursAt(s[1..], p, i) <==> OccursAt(s, p, i + 1)
  {
  }

  /** `s.contains(p)`, as a left-to-right scan for an index where `p` starts. */
  predicate Contains(s: string, p: string)
    decreases |s|
  {
    OccursAt(s, p, 0) || (|s| > 0 && Contains(s[1..], p))
  }

  /** The scan finds `p` exactly when `p` occurs at some index of `s`. */
  lemma {:induction false} ContainsIffOccurs(s: string, p: string)
    ensures Contains(s, p) <==> exists i: nat :: OccursAt(s, p, i)
    decreases |s|
  {
    if |s| > 0 {
      ContainsIffOccurs(s[1..], p);
      forall i: nat | OccursAt(s[1..], p, i)
        ensures OccursAt(s, p, i + 1)
      {
        OccursInTail(s, p, i);
      }
      forall i: nat | i > 0 && OccursAt(s, p, i)
        ensures OccursAt(s[1..], p, i - 1)
      {
        OccursInTail(s, p, i - 1);
      }
    } else {
      forall i: nat | OccursAt(s, p, i) ensures i == 0 { }
    }
  }

  /** `s.replacingOccurrences(of: p, with: "")`: scanning left to right, every
      non-overlapping occurrence of `p` is cut out. An empty `p` leaves `s`
      as it is. The contract bounds the length; `DeleteAllCutsEach` states
      that the scan goes on after each cut, and `Handler.ZoneIdRoundTrip` and
      `Handler.WifiIdRoundTrip` what is left of a region identifier. */
  function DeleteAll(s: string, p: string): (r: string)
    ensures |r| <= |s|
    ensures !Contains(s, p) ==> r == s
    ensures |p| > 0 && Contains(s, p) ==> |r| + |p| <= |s|
    decreases |s|
  {
    if |p| == 0 || |s| == 0 then s
    else if OccursAt(s, p, 0) then DeleteAll(s[|p|..], p)
    else [s[0]] + DeleteAll(s[1..], p)
  }

  /** The first occurrence found is cut, and deletion goes on after it: the
      text before it stays and the rest is scanned afresh. */
  lemma DeleteAllCutsEach(a: string, b: string, p: string)
    requires |p| > 0
    requires forall i: nat :: i < |a| ==> !OccursAt(a + p + b, p, i)
    ensures DeleteAll(a + p + b, p) == a + DeleteAll(b, p)
  {
    assert a + p + b == a + (p + b);
    DeleteAllSkipsPrefix(a, p + b, p);
    assert OccursAt(p + b, p, 0) by { assert (p + b)[..|p|] == p; }
    assert (p + b)[|p|..] == b;
  }

  /** When `p` starts at no index inside `a`, deletion leaves `a` untouched and
      carries on in `b`. */
  lemma {:induction false} DeleteAllSkipsPrefix(a: string, b: string, p: string)
    requires |p| > 0
    requires forall i: nat :: i < |a| ==> !OccursAt(a + b, p, i)
    ensures DeleteAll(a + b, p) == a + DeleteAll(b, p)
    decreases |a|
  {
    if |a| > 0 {
      var s := a + b;
      assert s[1..] == a[1..] + b;
      assert DeleteAll(s, p) == [a[0]] + DeleteAll(a[1..] + b, p) by {
        assert !OccursAt(s, p, 0);
      }
      assert DeleteAll(a[1..] + b, p) == a[1..] + DeleteAll(b, p) by {
        forall i: nat | i < |a[1..]|
          ensures !OccursAt(a[1..] + b, p, i)
        {
          OccursInTail(s, p, i);
          assert !OccursAt(s, p, i + 1);
        }
        DeleteAllSkipsPrefix(a[1..], b, p);
      }
      assert [a[0]] + (a[1..] + DeleteAll(b, p)) == a + DeleteAll(b, p);
    } else {
      assert a + b == b;
    }
  }

  /** A string made only of `p` is deleted entirely. */
  lemma DeleteAllSelf(p: string)
    requires |p| > 0
    ensures DeleteAll(p, p) == []
  {
  }

  /** Membership of Foundation's `CharacterSet.whitespaces`: character
      tabulation and the Unicode space separators (general category Zs). */
  predicate IsWhitespace(c: char)
  {
    || c == '\t' || c == ' ' || c == '\U{00A0}' || c == '\U{1680}'
    || ('\U{2000}' <= c <= '\U{200A}')
    || c == '\U{202F}' || c == '\U{205F}' || c == '\U{3000}'
  }

  /** Every character of `s` is whitespace. */
  predicate IsBlank(s: string)
  {
    forall i :: 0 <= i < |s| ==> IsWhitespace(s[i])
  }

  /** The set holds character tabulation and the space separators but no
      line break, so trimming keeps a line break between spaces. */
  lemma LineBreakIsNotWhitespace()
    ensures IsWhitespace('\t') && IsWhitespace(' ') && IsWhitespace('\U{00A0}') && IsWhitespace('\U{3000}')
    ensures !IsWhitespace('\n') && !IsWhitespace('\r') && !IsWhitespace('\U{2028}')
    ensures Trim(" \n ") == "\n"
  {
    assert !IsWhitespace('\n');
    assert TrimStart(" \n ") == "\n " by { assert " \n "[1..] == "\n "; }
    assert TrimEnd("\n ") == "\n" by { assert "\n "[..1] == "\n"; }
  }

  /** Leading whitespace removed: `r` is the longest suffix of `s` that does
      not start with whitespace. */
  function TrimStart(s: string): (r: string)
    ensures |r| <= |s| && r == s[|s| - |r|..]
    ensures IsBlank(s[..|s| - |r|])
    ensures r == [] || !IsWhitespace(r[0])
    decreases |s|
  {
    if |s| > 0 && IsWhitespace(s[0]) then
      var r := TrimStart(s[1..]);
      assert s[..|s| - |r|] == [s[0]] + s[1..][..|s[1..]| - |r|];
      r
    else s
  }

  /** Trailing whitespace removed: `r` is the longest prefix of `s` that does
      not end with whitespace. */
  function TrimEnd(s: string): (r: string)
    ensures |r| <= |s| && r == s[..|r|]
    ensures IsBlank(s[|r|..])
    ensures r == [] || !IsWhitespace(r[|r| - 1])
    decreases |s|
  {
    if |s| > 0 && IsWhitespace(s[|s| - 1]) then TrimEnd(s[..|s| - 1]) else s
  }

  /** `s.trimmingCharacters(in: .whitespaces)`: `s` with a blank prefix and a
      blank suffix cut off, so that what is left is empty exactly when `s` is
      blank, and otherwise starts and ends on a non-whitespace character. */
  function Trim(s: string): (r: string)
    ensures exists i, j :: 0 <= i <= j <= |s| && r == s[i..j] && IsBlank(s[..i]) && IsBlank(s[j..])
    ensures r == [] <==> IsBlank(s)
    ensures r != [] ==> !IsWhitespace(r[0]) && !IsWhitespace(r[|r| - 1])
  {
    TrimCutsBlankEnds(s);
    TrimEnd(TrimStart(s))
  }

  /** Trimming the start, then the end, cuts a blank prefix and a blank
      suffix off `s`. */
  lemma TrimCutsBlankEnds(s: string)
    ensures var r := TrimEnd(TrimStart(s));
      && (exists i, j :: 0 <= i <= j <= |s| && r == s[i..j] && IsBlank(s[..i]) && IsBlank(s[j..]))
      && (r == [] <==> IsBlank(s))
      && (r != [] ==> !IsWhitespace(r[0]) && !IsWhitespace(r[|r| - 1]))
  {
    var t := TrimStart(s);
    CutBlankEnds(s, t, TrimEnd(t));
  }

  /** Any `t` that is `s` less a blank prefix and any `r` that is `t` less a
      blank suffix, each stopping at a non-whitespace character, is `s` cut
      down to its non-blank middle. */
  lemma CutBlankEnds(s: string, t: string, r: string)
    requires |t| <= |s| && t == s[|s| - |t|..] && IsBlank(s[..|s| - |t|]) && (t == [] || !IsWhitespace(t[0]))
    requires |r| <= |t| && r == t[..|r|] && IsBlank(t[|r|..]) && (r == [] || !IsWhitespace(r[|r| - 1]))
    ensures exists i, j :: 0 <= i <= j <= |s| && r == s[i..j] && IsBlank(s[..i]) && IsBlank(s[j..])
    ensures r == [] <==> IsBlank(s)
    ensures r != [] ==> !IsWhitespace(r[0]) && !IsWhitespace(r[|r| - 1])
  {
    var i := |s| - |t|;
    var j := i + |r|;
    assert r == s[i..j];
    assert s[j..] == t[|r|..];
    assert r != [] ==> r[0] == t[0];
    BlankSplit(s, i, j);
  }

  /** Between a blank prefix and a blank suffix, `s` is blank exactly when
      the middle is. */
  lemma BlankSplit(s: string, i: int, j: int)
    requires 0 <= i <= j <= |s| && IsBlank(s[..i]) && IsBlank(s[j..])
    ensures IsBlank(s) <==> IsBlank(s[i..j])
  {
    if IsBlank(s[i..j]) {
      forall k | 0 <= k < |s| ensures IsWhitespace(s[k]) {
        if k < i {
          assert s[k] == s[..i][k];
        } else if k >= j {
          assert s[k] == s[j..][k - j];
        } else {
          assert s[k] == s[i..j][k - i];
        }
      }
    }
  }
}
