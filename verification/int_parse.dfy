/**
 * Python's `int(s)` on a string in base 10, for ASCII text: surrounding
 * whitespace is stripped, one optional sign may follow, and the rest must
 * be decimal digits with single underscores between them. Anything else
 * makes `int` raise `ValueError`, modelled as `None`.
 */
module IntParse {
  import opened Wrappers

  predicate IsDigit(ch: char) {
    '0' <= ch <= '9'
  }

  function DigitValue(ch: char): nat
    requires IsDigit(ch)
  {
    (ch as int - '0' as int) as nat
  }

  /** The ASCII characters `str.isspace` accepts: tab, line feed, vertical
      tab, form feed, carriage return, the separators 0x1c-0x1f, and space. */
  predicate IsSpace(ch: char) {
    var k := ch as int;
    k == 32 || 9 <= k <= 13 || 28 <= k <= 31
  }

  predicate AllSpace(s: string) {
    forall i :: 0 <= i < |s| ==> IsSpace(s[i])
  }

  /** A digit string as `int` accepts it: non-empty, and every character is
      a digit or an underscore with a digit on each side. */
  predicate DigitGroups(s: string) {
    |s| > 0 && forall i :: 0 <= i < |s| ==> GroupCharAt(s, i)
  }

  /** Position `i` holds a digit, or an underscore between two digits. */
  predicate GroupCharAt(s: string, i: int)
    requires 0 <= i < |s|
  {
    IsDigit(s[i]) || (s[i] == '_' && 0 < i < |s| - 1 && IsDigit(s[i - 1]) && IsDigit(s[i + 1]))
  }

  /** The digit string without its last digit, and without the underscore
      before that digit if there is one. */
  function DropLastDigit(s: string): string
    requires |s| >= 2
  {
    if s[|s| - 2] == '_' then s[..|s| - 2] else s[..|s| - 1]
  }

  /** A well-formed digit string begins and ends with a digit. */
  lemma DigitGroupsEnds(s: string)
    requires DigitGroups(s)
    ensures IsDigit(s[0]) && IsDigit(s[|s| - 1])
  {
    assert GroupCharAt(s, 0) && GroupCharAt(s, |s| - 1);
  }

  /** A digit string ending in a digit is well formed exactly when what is
      left after dropping that digit (and its underscore) is. */
  lemma DigitGroupsSnoc(s: string)
    requires |s| >= 2 && IsDigit(s[|s| - 1])
    ensures DigitGroups(s) <==> DigitGroups(DropLastDigit(s))
  {
    if DigitGroups(s) {
      SnocDrops(s);
    }
    if DigitGroups(DropLastDigit(s)) {
      SnocExtends(s);
    }
  }

  lemma SnocDrops(s: string)
    requires |s| >= 2 && DigitGroups(s)
    ensures DigitGroups(DropLastDigit(s))
  {
    var pre := DropLastDigit(s);
    var n := |s|;
    assert GroupCharAt(s, n - 2);
    forall i | 0 <= i < |pre|
      ensures GroupCharAt(pre, i)
    {
      assert pre[i] == s[i];
      assert GroupCharAt(s, i);
      if !IsDigit(s[i]) {
        assert i + 1 < |pre|;
        assert pre[i - 1] == s[i - 1] && pre[i + 1] == s[i + 1];
      }
    }
  }

  lemma SnocExtends(s: string)
    requires |s| >= 2 && IsDigit(s[|s| - 1]) && DigitGroups(DropLastDigit(s))
    ensures DigitGroups(s)
  {
    var pre := DropLastDigit(s);
    var n := |s|;
    DigitGroupsEnds(pre);
    forall i | 0 <= i < n
      ensures GroupCharAt(s, i)
    {
      if i < |pre| {
        assert s[i] == pre[i];
        assert GroupCharAt(pre, i);
        if !IsDigit(pre[i]) {
          assert s[i - 1] == pre[i - 1] && s[i + 1] == pre[i + 1];
        }
      } else if i < n - 1 {
        assert s[i - 1] == pre[|pre| - 1];
      }
    }
  }

  /** The value of a digit string, underscores ignored; `None` where it is
      not well formed. */
  function ParseGroups(s: string): (r: Option<nat>)
    ensures r.Some? <==> DigitGroups(s)
    decreases |s|
  {
    if |s| == 0 then None
    else if !IsDigit(s[|s| - 1]) then
      assert !DigitGroups(s) by {
        if DigitGroups(s) {
          DigitGroupsEnds(s);
        }
      }
      None
    else if |s| == 1 then
      assert DigitGroups(s);
      Some(DigitValue(s[0]))
    else
      DigitGroupsSnoc(s);
      match ParseGroups(DropLastDigit(s))
      case None => None
      case Some(v) => Some(10 * v + DigitValue(s[|s| - 1]))
  }

  /** Leading whitespace removed. */
  function TrimStart(s: string): (r: string)
    ensures |r| <= |s| && r == s[|s| - |r|..]
    ensures |r| > 0 ==> !IsSpace(r[0])
    ensures AllSpace(s[..|s| - |r|])
    decreases |s|
  {
    if |s| > 0 && IsSpace(s[0]) then
      var r := TrimStart(s[1..]);
      assert s[..|s| - |r|] == [s[0]] + s[1..][..|s| - 1 - |r|];
      r
    else s
  }

  /** Trailing whitespace removed. */
  function TrimEnd(s: string): (r: string)
    ensures |r| <= |s| && r == s[..|r|]
    ensures |r| > 0 ==> !IsSpace(r[|r| - 1])
    ensures AllSpace(s[|r|..])
    decreases |s|
  {
    if |s| > 0 && IsSpace(s[|s| - 1]) then
      var r := TrimEnd(s[..|s| - 1]);
      assert s[|r|..] == s[..|s| - 1][|r|..] + [s[|s| - 1]];
      r
    else s
  }

  /** `r` is `s[k..k + |r|]`, and everything around it is whitespace. */
  predicate StrippedAt(s: string, r: string, k: int) {
    && 0 <= k <= |s| - |r|
    && r == s[k..k + |r|]
    && AllSpace(s[..k])
    && AllSpace(s[k + |r|..])
  }

  /** `str.strip()`: the result has no whitespace at either end, and only
      whitespace was removed. */
  function Strip(s: string): (r: string)
    ensures |r| > 0 ==> !IsSpace(r[0]) && !IsSpace(r[|r| - 1])
    ensures exists k :: StrippedAt(s, r, k)
  {
    var t := TrimStart(s);
    var r := TrimEnd(t);
    StripWitness(s, t, r, |s| - |t|);
    r
  }

  lemma StripWitness(s: string, t: string, r: string, k: int)
    requires 0 <= k <= |s| && t == s[k..] && AllSpace(s[..k])
    requires |r| <= |t| && r == t[..|r|] && AllSpace(t[|r|..])
    ensures StrippedAt(s, r, k)
  {
    assert s[k..k + |r|] == t[..|r|];
    assert s[k + |r|..] == t[|r|..];
  }

  /** The text `int` accepts once stripped: digit groups, with one optional
      sign in front. */
  predicate IntLiteral(t: string) {
    DigitGroups(t) || (|t| > 0 && (t[0] == '+' || t[0] == '-') && DigitGroups(t[1..]))
  }

  /** The value of a stripped literal; `None` where it is not one. */
  function ParseLiteral(t: string): (r: Option<int>)
    ensures r.Some? <==> IntLiteral(t)
  {
    if |t| > 0 && (t[0] == '+' || t[0] == '-') then
      assert !DigitGroups(t) by {
        if DigitGroups(t) {
          DigitGroupsEnds(t);
        }
      }
      match ParseGroups(t[1..])
      case None => None
      case Some(v) => Some(if t[0] == '-' then -(v as int) else v as int)
    else
      match ParseGroups(t)
      case None => None
      case Some(v) => Some(v)
  }

  /** `int(s)`: the literal left once the surrounding whitespace is gone. */
  function ParseInt(s: string): (r: Option<int>)
    ensures r.Some? <==> IntLiteral(Strip(s))
  {
    ParseLiteral(Strip(s))
  }

  /** The decimal rendering of a natural number, without leading zeros. */
  function ShowNat(n: nat): (r: string)
    ensures |r| > 0 && IsDigit(r[0]) && IsDigit(r[|r| - 1])
    ensures forall i :: 0 <= i < |r| ==> IsDigit(r[i])
    decreases n
  {
    if n < 10 then [('0' as int + n) as char]
    else ShowNat(n / 10) + [('0' as int + n % 10) as char]
  }

  /** `str(n)`: a minus sign in front of a negative number. */
  function ShowInt(n: int): (r: string)
    ensures |r| > 0 && !IsSpace(r[0]) && !IsSpace(r[|r| - 1])
  {
    if n < 0 then "-" + ShowNat(-n) else ShowNat(n)
  }

  /** Parsing the rendering of a natural number gives it back. */
  lemma {:induction false} ParseGroupsShow(n: nat)
    ensures ParseGroups(ShowNat(n)) == Some(n)
    decreases n
  {
    if n >= 10 {
      ParseGroupsShow(n / 10);
      var s := ShowNat(n);
      assert s[|s| - 2] != '_';
      assert DropLastDigit(s) == ShowNat(n / 10);
    }
  }

  lemma TrimStartKeeps(s: string)
    requires |s| > 0 && !IsSpace(s[0])
    ensures TrimStart(s) == s
  {
  }

  lemma TrimEndKeeps(s: string)
    requires |s| > 0 && !IsSpace(s[|s| - 1])
    ensures TrimEnd(s) == s
  {
  }

  /** Text with no whitespace at either end is left alone by `str.strip`. */
  lemma StripKeeps(s: string)
    requires |s| > 0 && !IsSpace(s[0]) && !IsSpace(s[|s| - 1])
    ensures Strip(s) == s
  {
    TrimStartKeeps(s);
    TrimEndKeeps(s);
  }

  /** `int(str(n)) == n` for every integer. */
  lemma ParseIntShow(n: int)
    ensures ParseInt(ShowInt(n)) == Some(n)
  {
    StripKeeps(ShowInt(n));
    if n < 0 {
      ParseLiteralNegative(-n);
    } else {
      ParseLiteralNat(n);
    }
  }

  lemma ParseLiteralNat(n: nat)
    ensures ParseLiteral(ShowNat(n)) == Some(n)
  {
    var t := ShowNat(n);
    assert IsDigit(t[0]);
    ParseGroupsShow(n);
  }

  lemma ParseLiteralNegative(n: nat)
    ensures ParseLiteral("-" + ShowNat(n)) == Some(-(n as int))
  {
    var t := "-" + ShowNat(n);
    assert t[0] == '-' && t[1..] == ShowNat(n);
    ParseGroupsShow(n);
  }

  /** Leading whitespace does not change the stripped text. */
  lemma {:induction false} TrimStartPadded(pre: string, s: string)
    requires AllSpace(pre)
    ensures TrimStart(pre + s) == TrimStart(s)
    decreases |pre|
  {
    if |pre| > 0 {
      assert (pre + s)[1..] == pre[1..] + s;
      TrimStartPadded(pre[1..], s);
    } else {
      assert pre + s == s;
    }
  }

  /** Trailing whitespace does not change the stripped text. */
  lemma {:induction false} TrimEndPadded(s: string, post: string)
    requires AllSpace(post)
    ensures TrimEnd(s + post) == TrimEnd(s)
    decreases |post|
  {
    if |post| > 0 {
      assert (s + post)[..|s + post| - 1] == s + post[..|post| - 1];
      TrimEndPadded(s, post[..|post| - 1]);
    } else {
      assert s + post == s;
    }
  }

  /** Stripping the start first and appending trailing whitespace commute. */
  lemma {:induction false} TrimStartAppend(s: string, post: string)
    requires AllSpace(post)
    ensures TrimStart(s + post) == TrimStart(s) + post || (TrimStart(s) == [] && TrimStart(s + post) == [])
    decreases |s|
  {
    if |s| == 0 {
      assert s + post == post;
      TrimStartAllSpace(post);
    } else {
      assert (s + post)[0] == s[0];
      if IsSpace(s[0]) {
        assert (s + post)[1..] == s[1..] + post;
        TrimStartAppend(s[1..], post);
      }
    }
  }

  lemma {:induction false} TrimStartAllSpace(s: string)
    requires AllSpace(s)
    ensures TrimStart(s) == []
    decreases |s|
  {
    if |s| > 0 {
      TrimStartAllSpace(s[1..]);
    }
  }

  /** Whitespace around the text is exactly what `str.strip` removes. */
  lemma StripPadded(pre: string, s: string, post: string)
    requires AllSpace(pre) && AllSpace(post)
    ensures Strip(pre + s + post) == Strip(s)
  {
    assert pre + s + post == pre + (s + post);
    TrimStartPadded(pre, s + post);
    var t := TrimStart(s + post);
    assert Strip(pre + s + post) == TrimEnd(t);
    TrimStartAppend(s, post);
    if t == TrimStart(s) + post {
      TrimEndPadded(TrimStart(s), post);
    } else {
      assert TrimStart(s) == [] && t == [];
    }
  }

  /** Whitespace around the text never changes what `int` returns. */
  lemma ParseIntPadded(pre: string, s: string, post: string)
    requires AllSpace(pre) && AllSpace(post)
    ensures ParseInt(pre + s + post) == ParseInt(s)
  {
    StripPadded(pre, s, post);
  }
}
