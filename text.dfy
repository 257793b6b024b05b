/** JavaScript string primitives the handlers and the client rely on:
    `String.prototype.trim`, `String.prototype.split` with a string separator,
    the decimal rendering of an integer and `parseInt` in base 10. */
module Text {
  import opened Common

  /** The WhiteSpace and LineTerminator characters of ECMAScript, which `trim` removes
      and `\s` matches: tab, line feed, vertical tab, form feed, carriage return
      (U+0009 to U+000D), space, no-break space, the Ogham space mark, the spaces
      U+2000 to U+200A, the line and paragraph separators, the narrow no-break space,
      the medium mathematical space, the ideographic space and the byte order mark. */
  predicate IsJsSpace(c: char) {
    ('\t' <= c <= '\r') || c == ' ' || c == '\U{A0}' || c == '\U{1680}' || ('\U{2000}' <= c <= '\U{200A}')
    || c == '\U{2028}' || c == '\U{2029}' || c == '\U{202F}' || c == '\U{205F}' || c == '\U{3000}' || c == '\U{FEFF}'
  }

  /** Empty or made only of white space. */
  predicate IsBlank(s: string) {
    forall k :: 0 <= k < |s| ==> IsJsSpace(s[k])
  }

  /** `s` with its leading white space removed. */
  function TrimStart(s: string): (r: string)
    ensures |r| <= |s| && r == s[|s| - |r|..]
    ensures r == [] || !IsJsSpace(r[0])
    ensures IsBlank(s[..|s| - |r|])
  {
    if s != [] && IsJsSpace(s[0]) then
      var r := TrimStart(s[1..]);
      assert s[1..][..|s| - 1 - |r|] == s[1..|s| - |r|];
      r
    else
      s
  }

  /** `s` with its trailing white space removed. */
  function TrimEnd(s: string): (r: string)
    ensures |r| <= |s| && r == s[..|r|]
    ensures r == [] || !IsJsSpace(r[|r| - 1])
    ensures IsBlank(s[|r|..])
  {
    if s != [] && IsJsSpace(s[|s| - 1]) then
      var r := TrimEnd(s[..|s| - 1]);
      assert s[|r|..] == s[..|s| - 1][|r|..] + [s[|s| - 1]];
      r
    else
      s
  }

  /** `s.trim()`: the infix of `s` left after stripping white space from both ends. */
  function Trim(s: string): (r: string)
    ensures |r| <= |s|
    ensures r == [] <==> IsBlank(s)
    ensures r != [] ==> !IsJsSpace(r[0]) && !IsJsSpace(r[|r| - 1])
  {
    var t := TrimStart(s);
    var r := TrimEnd(t);
    TrimParts(s, t, r);
    r
  }

  /** `r` sits in `s` at `lead`, with only white space before and after it. */
  predicate IsTrimmedAt(s: string, r: string, lead: nat)
    requires lead + |r| <= |s|
  {
    r == s[lead..lead + |r|] && IsBlank(s[..lead]) && IsBlank(s[lead + |r|..])
  }

  lemma BlankConcat(a: string, b: string)
    ensures IsBlank(a + b) <==> IsBlank(a) && IsBlank(b)
  {
    if IsBlank(a) && IsBlank(b) {
      forall k | 0 <= k < |a + b| ensures IsJsSpace((a + b)[k]) {
        if k < |a| { assert (a + b)[k] == a[k]; } else { assert (a + b)[k] == b[k - |a|]; }
      }
    }
    if IsBlank(a + b) {
      forall k | 0 <= k < |b| ensures IsJsSpace(b[k]) {
        assert (a + b)[|a| + k] == b[k];
      }
      forall k | 0 <= k < |a| ensures IsJsSpace(a[k]) {
        assert (a + b)[k] == a[k];
      }
    }
  }

  lemma TrimParts(s: string, t: string, r: string)
    requires |t| <= |s| && t == s[|s| - |t|..] && IsBlank(s[..|s| - |t|])
    requires t == [] || !IsJsSpace(t[0])
    requires |r| <= |t| && r == t[..|r|] && IsBlank(t[|r|..])
    ensures r == [] <==> IsBlank(s)
    ensures r != [] ==> !IsJsSpace(r[0])
    ensures IsTrimmedAt(s, r, |s| - |t|)
  {
    var lead := |s| - |t|;
    assert s == s[..lead] + t;
    assert t == r + t[|r|..];
    assert s[lead..lead + |r|] == r;
    assert s[lead + |r|..] == t[|r|..];
    BlankConcat(s[..lead], t);
    BlankConcat(r, t[|r|..]);
    if r != [] {
      assert r[0] == t[0];
    }
  }

  /** `trim` removes white space only: its result sits inside the text with nothing but
      white space before and after it. */
  lemma TrimIsInfix(s: string)
    ensures exists lead :: 0 <= lead <= |s| - |Trim(s)| && IsTrimmedAt(s, Trim(s), lead)
  {
    var t := TrimStart(s);
    TrimParts(s, t, TrimEnd(t));
    assert IsTrimmedAt(s, Trim(s), |s| - |t|);
  }

  lemma {:induction false} TrimIdempotent(s: string)
    ensures Trim(Trim(s)) == Trim(s)
  {
    var r := Trim(s);
    assert TrimStart(r) == r;
    assert TrimEnd(r) == r;
  }

  /** The pattern `pat` occurs in `s` at position `k`. */
  predicate OccursAt(s: string, pat: string, k: nat) {
    k <= |s| && pat <= s[k..]
  }

  /** No occurrence of `pat` in `s` starts before position `n`. */
  predicate NoOccurrenceBefore(s: string, pat: string, n: nat) {
    forall k :: 0 <= k < n && k <= |s| ==> !(pat <= s[k..])
  }

  /** A one-character separator occurs only where that character is. */
  lemma NoCharBefore(s: string, c: char, n: nat)
    requires forall i :: 0 <= i < n && i < |s| ==> s[i] != c
    ensures NoOccurrenceBefore(s, [c], n)
  {
    forall k | 0 <= k < n && k <= |s| ensures !([c] <= s[k..]) {
      if k < |s| {
        assert s[k..][0] == s[k];
      }
    }
  }

  /** `s.split(pat)` for a non-empty separator string: the pieces between the
      non-overlapping occurrences of `pat`, scanning from the left. */
  function Split(s: string, pat: string): (r: seq<string>)
    requires pat != []
    ensures |r| >= 1
    decreases |s|
  {
    if s == [] then [""]
    else if pat <= s then [""] + Split(s[|pat|..], pat)
    else
      var rest := Split(s[1..], pat);
      [[s[0]] + rest[0]] + rest[1..]
  }

  /** Without any occurrence of the separator the string is one piece. */
  lemma {:induction false} SplitNoOccurrence(s: string, pat: string)
    requires pat != []
    requires NoOccurrenceBefore(s, pat, |s| + 1)
    ensures Split(s, pat) == [s]
    decreases |s|
  {
    if s != [] {
      assert !(pat <= s[0..]);
      assert s[0..] == s;
      forall k | 0 <= k < |s[1..]| + 1 ensures !(pat <= s[1..][k..]) {
        assert s[1..][k..] == s[k + 1..];
      }
      SplitNoOccurrence(s[1..], pat);
      assert [s[0]] + s[1..] == s;
    }
  }

  /** When the first occurrence of the separator in `a + pat + b` is the one after `a`,
      the first piece is `a` and the rest is the split of `b`. */
  lemma {:induction false} SplitFirstOccurrence(a: string, pat: string, b: string)
    requires pat != []
    requires NoOccurrenceBefore(a + pat + b, pat, |a|)
    ensures Split(a + pat + b, pat) == [a] + Split(b, pat)
    decreases |a|
  {
    var s := a + pat + b;
    if a == [] {
      assert s == pat + b;
      assert s[|pat|..] == b;
    } else {
      assert !(pat <= s[0..]);
      assert s[0..] == s;
      assert s[1..] == a[1..] + pat + b;
      forall k | 0 <= k < |a[1..]| && k <= |s[1..]| ensures !(pat <= s[1..][k..]) {
        assert s[1..][k..] == s[k + 1..];
      }
      SplitFirstOccurrence(a[1..], pat, b);
      assert [a[0]] + a[1..] == a;
    }
  }

  /** Joining the pieces with the separator gives the original string back. */
  function Join(pieces: seq<string>, pat: string): string
    requires |pieces| >= 1
  {
    if |pieces| == 1 then pieces[0] else pieces[0] + pat + Join(pieces[1..], pat)
  }

  lemma {:induction false} SplitJoin(s: string, pat: string)
    requires pat != []
    ensures Join(Split(s, pat), pat) == s
    decreases |s|
  {
    if s == [] {
    } else if pat <= s {
      SplitJoin(s[|pat|..], pat);
      JoinCons("", Split(s[|pat|..], pat), pat);
      PrefixSplit(s, pat);
    } else {
      SplitJoin(s[1..], pat);
      JoinExtendHead(s[0], Split(s[1..], pat), pat);
      assert s == [s[0]] + s[1..];
    }
  }

  lemma PrefixSplit(s: string, pat: string)
    requires pat <= s
    ensures "" + pat + s[|pat|..] == s
  {
  }

  lemma JoinCons(x: string, rest: seq<string>, pat: string)
    requires |rest| >= 1
    ensures Join([x] + rest, pat) == x + pat + Join(rest, pat)
  {
    assert ([x] + rest)[1..] == rest;
  }

  lemma JoinExtendHead(c: char, pieces: seq<string>, pat: string)
    requires |pieces| >= 1
    ensures Join([[c] + pieces[0]] + pieces[1..], pat) == [c] + Join(pieces, pat)
  {
    var r := [[c] + pieces[0]] + pieces[1..];
    if |pieces| > 1 {
      assert r[1..] == pieces[1..];
    }
  }

  /** Piece `n` of the split (`s.split(pat)[n]`), `None` where JavaScript yields `undefined`. */
  function Piece(s: string, pat: string, n: nat): Option<string>
    requires pat != []
  {
    var pieces := Split(s, pat);
    if n < |pieces| then Some(pieces[n]) else None
  }

  predicate IsDigit(c: char) {
    '0' <= c <= '9'
  }

  function DigitChar(d: nat): (c: char)
    requires d < 10
    ensures IsDigit(c) && (c as int) - ('0' as int) == d
  {
    ((d + '0' as int) as char)
  }

  /** The decimal numeral of a natural number, without leading zeros. */
  function ShowNat(n: nat): (r: string)
    ensures r != [] && forall k :: 0 <= k < |r| ==> IsDigit(r[k])
    ensures |r| > 1 ==> r[0] != '0'
  {
    if n < 10 then [DigitChar(n)] else ShowNat(n / 10) + [DigitChar(n % 10)]
  }

  /** How JavaScript prints an integral number: an optional minus sign and the numeral. */
  function ShowInt(i: int): string {
    if i < 0 then "-" + ShowNat(-i) else ShowNat(i)
  }

  function DigitValue(c: char): nat
    requires IsDigit(c)
  {
    (c as int) - ('0' as int)
  }

  /** The value of a string of decimal digits. */
  function DigitsValue(s: string): nat
    requires forall k :: 0 <= k < |s| ==> IsDigit(s[k])
  {
    if s == [] then 0 else DigitsValue(s[..|s| - 1]) * 10 + DigitValue(s[|s| - 1])
  }

  /** The longest prefix of `s` made of decimal digits. */
  function DigitPrefix(s: string): (r: string)
    ensures r <= s && forall k :: 0 <= k < |r| ==> IsDigit(r[k])
    ensures |r| < |s| ==> !IsDigit(s[|r|])
  {
    if s != [] && IsDigit(s[0]) then [s[0]] + DigitPrefix(s[1..]) else []
  }

  /** `parseInt(s)` on decimal text: skip leading white space, read an optional sign
      and the longest run of digits; `None` stands for `NaN` (no digit at all). */
  function ParseInt(s: string): Option<int> {
    var t := TrimStart(s);
    var negative := t != [] && t[0] == '-';
    var body := if t != [] && (t[0] == '-' || t[0] == '+') then t[1..] else t;
    var digits := DigitPrefix(body);
    var value: int := DigitsValue(digits);
    if digits == [] then None
    else if negative then Some(-value)
    else Some(value)
  }

  lemma {:induction false} ShowNatValue(n: nat)
    ensures DigitsValue(ShowNat(n)) == n
  {
    if n >= 10 {
      var r := ShowNat(n);
      ShowNatValue(n / 10);
      assert r[..|r| - 1] == ShowNat(n / 10);
    }
  }

  /** Reading back a printed integer gives the integer: `parseInt(String(i)) === i`. */
  lemma {:induction false} ParseShowInt(i: int)
    ensures ParseInt(ShowInt(i)) == Some(i)
  {
    var s := ShowInt(i);
    var n: nat := if i < 0 then -i else i;
    assert !IsJsSpace(s[0]);
    assert TrimStart(s) == s;
    var body := if i < 0 then s[1..] else s;
    assert body == ShowNat(n);
    DigitPrefixAll(body);
    ShowNatValue(n);
  }

  lemma {:induction false} DigitPrefixAll(s: string)
    requires forall k :: 0 <= k < |s| ==> IsDigit(s[k])
    ensures DigitPrefix(s) == s
  {
    if s != [] {
      DigitPrefixAll(s[1..]);
    }
  }
}
