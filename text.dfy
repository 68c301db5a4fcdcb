/**
 * String operations shared by the model: the JavaScript and Python whitespace
 * classes and trimming, UTF-16 length, substring search, split/join,
 * replace-all, decimal formatting and JavaScript's parseInt.
 */
module Text {
  import opened Wrappers

  type String = seq<char>

  // ---------------------------------------------------------------- classes

  /** ECMAScript WhiteSpace and LineTerminator: what String.prototype.trim removes. */
  predicate IsJsSpace(c: char) {
    c == '\t' || c == '\n' || c == '\U{B}' || c == '\U{C}' || c == '\r' || c == ' '
    || c == '\U{A0}' || c == '\U{1680}' || ('\U{2000}' <= c <= '\U{200A}')
    || c == '\U{2028}' || c == '\U{2029}' || c == '\U{202F}' || c == '\U{205F}'
    || c == '\U{3000}' || c == '\U{FEFF}'
  }

  /** Python's str.isspace on one character: what str.strip() removes. */
  predicate IsPySpace(c: char) {
    ('\t' <= c <= '\r') || ('\U{1C}' <= c <= '\U{1F}') || c == ' ' || c == '\U{85}'
    || c == '\U{A0}' || c == '\U{1680}' || ('\U{2000}' <= c <= '\U{200A}')
    || c == '\U{2028}' || c == '\U{2029}' || c == '\U{202F}' || c == '\U{205F}' || c == '\U{3000}'
  }

  /** Which language's notion of whitespace a trim uses. */
  datatype Whitespace = JsWhitespace | PyWhitespace

  predicate IsSpace(ws: Whitespace, c: char) {
    match ws
    case JsWhitespace => IsJsSpace(c)
    case PyWhitespace => IsPySpace(c)
  }

  /** The ECMAScript LineTerminator characters, which a regular-expression '.' does not match. */
  predicate IsLineTerminator(c: char) {
    c == '\n' || c == '\r' || c == '\U{2028}' || c == '\U{2029}'
  }

  predicate IsDigit(c: char) { '0' <= c <= '9' }
  predicate IsUpper(c: char) { 'A' <= c <= 'Z' }
  predicate IsLower(c: char) { 'a' <= c <= 'z' }

  predicate AllDigits(s: String) { forall i :: 0 <= i < |s| ==> IsDigit(s[i]) }

  /** Some character of s satisfies p: the shape of a one-class regular expression test. */
  predicate HasCharWhere(s: String, p: char -> bool) { exists i :: 0 <= i < |s| && p(s[i]) }

  /** Every character of s is whitespace of the class ws. */
  predicate IsBlank(s: String, ws: Whitespace) { forall i :: 0 <= i < |s| ==> IsSpace(ws, s[i]) }

  // ---------------------------------------------------------------- trimming

  function TrimStart(s: String, ws: Whitespace): (r: String)
    ensures |r| <= |s| && r == s[|s| - |r|..]
    ensures forall i :: 0 <= i < |s| - |r| ==> IsSpace(ws, s[i])
    ensures r != [] ==> !IsSpace(ws, r[0])
  {
    if s != [] && IsSpace(ws, s[0]) then TrimStart(s[1..], ws) else s
  }

  function TrimEnd(s: String, ws: Whitespace): (r: String)
    ensures |r| <= |s| && r == s[..|r|]
    ensures forall i :: |r| <= i < |s| ==> IsSpace(ws, s[i])
    ensures r != [] ==> !IsSpace(ws, r[|r| - 1])
  {
    if s != [] && IsSpace(ws, s[|s| - 1]) then TrimEnd(s[..|s| - 1], ws) else s
  }

  function Trim(s: String, ws: Whitespace): String {
    TrimEnd(TrimStart(s, ws), ws)
  }

  /** JavaScript's String.prototype.trim. */
  function TrimJs(s: String): String { Trim(s, JsWhitespace) }

  /** Python's str.strip() with no argument. */
  function StripPy(s: String): String { Trim(s, PyWhitespace) }

  lemma TrimStartKeeps(s: String, ws: Whitespace)
    requires s != [] && !IsSpace(ws, s[0])
    ensures TrimStart(s, ws) == s
  {
  }

  lemma TrimEndKeeps(s: String, ws: Whitespace)
    requires s != [] && !IsSpace(ws, s[|s| - 1])
    ensures TrimEnd(s, ws) == s
  {
  }

  /** Trimming twice trims no more than trimming once. */
  lemma TrimIdempotent(s: String, ws: Whitespace)
    ensures Trim(Trim(s, ws), ws) == Trim(s, ws)
  {
    var u := TrimStart(s, ws);
    var t := TrimEnd(u, ws);
    if t != [] {
      assert t[0] == u[0];
      TrimStartKeeps(t, ws);
      TrimEndKeeps(t, ws);
    }
  }

  /** Trimming yields the empty string exactly when every character is whitespace. */
  lemma TrimEmptyIffBlank(s: String, ws: Whitespace)
    ensures Trim(s, ws) == [] <==> IsBlank(s, ws)
  {
    var t := TrimStart(s, ws);
    if Trim(s, ws) == [] {
      assert t == [];
    } else {
      assert t != [] && !IsSpace(ws, t[0]);
      assert s[|s| - |t|] == t[0];
    }
  }

  /** Trimming keeps a contiguous piece of the input and removes only whitespace around it. */
  lemma TrimIsInnerSlice(s: String, ws: Whitespace)
    ensures exists i, j :: 0 <= i <= j <= |s| && Trim(s, ws) == s[i..j]
                           && IsBlank(s[..i], ws) && IsBlank(s[j..], ws)
  {
    var t := TrimStart(s, ws);
    var r := TrimEnd(t, ws);
    var i := |s| - |t|;
    PrefixBlank(s, ws, i);
    SliceOfSuffix(s, t, i, |r|);
    SuffixBlank(s, t, ws, i, |r|);
    assert Trim(s, ws) == s[i..i + |r|];
  }

  lemma PrefixBlank(s: String, ws: Whitespace, k: nat)
    requires k <= |s| && forall i :: 0 <= i < k ==> IsSpace(ws, s[i])
    ensures IsBlank(s[..k], ws)
  {
    forall i | 0 <= i < k ensures IsSpace(ws, s[..k][i]) {
      assert s[..k][i] == s[i];
    }
  }

  lemma SliceOfSuffix(s: String, t: String, d: nat, n: nat)
    requires d <= |s| && t == s[d..] && n <= |t|
    ensures t[..n] == s[d..d + n]
  {
  }

  lemma SuffixBlank(s: String, t: String, ws: Whitespace, d: nat, m: nat)
    requires d <= |s| && t == s[d..] && m <= |t|
    requires forall i :: m <= i < |t| ==> IsSpace(ws, t[i])
    ensures IsBlank(s[d + m..], ws)
  {
    var e := d + m;
    forall k | 0 <= k < |s| - e ensures IsSpace(ws, s[e..][k]) {
      assert s[e..][k] == t[m + k];
    }
  }

  /** Trimming a text that is not blank leaves a non-empty text, no longer than before, with no space at either end. */
  lemma TrimEdges(s: String, ws: Whitespace)
    requires !IsBlank(s, ws)
    ensures var t := Trim(s, ws); t != [] && |t| <= |s| && !IsSpace(ws, t[0]) && !IsSpace(ws, t[|t| - 1])
  {
    TrimEmptyIffBlank(s, ws);
    var u := TrimStart(s, ws);
    var t := TrimEnd(u, ws);
    assert t[0] == u[0];
  }

  // ---------------------------------------------------------------- length

  /** String length as JavaScript counts it: UTF-16 code units. */
  function JsLength(s: String): (n: nat)
    ensures |s| <= n <= 2 * |s|
    ensures (forall i :: 0 <= i < |s| ==> s[i] as int <= 0xFFFF) ==> n == |s|
  {
    if s == [] then 0 else (if s[0] as int > 0xFFFF then 2 else 1) + JsLength(s[1..])
  }

  // ---------------------------------------------------------------- search

  predicate StartsWith(s: String, p: String) { |p| <= |s| && s[..|p|] == p }
  predicate EndsWith(s: String, p: String) { |p| <= |s| && s[|s| - |p|..] == p }
  predicate OccursAt(s: String, p: String, i: nat) { i + |p| <= |s| && s[i..i + |p|] == p }
  predicate Contains(s: String, p: String) { exists i: nat | i <= |s| :: OccursAt(s, p, i) }

  /** The first position at or after from where p occurs in s. */
  function IndexFrom(s: String, p: String, from: nat): (r: Option<nat>)
    requires from <= |s|
    ensures r.Some? ==> from <= r.value && OccursAt(s, p, r.value)
    ensures r.Some? ==> forall j: nat :: from <= j < r.value ==> !OccursAt(s, p, j)
    ensures r.None? ==> forall j: nat :: from <= j ==> !OccursAt(s, p, j)
    decreases |s| - from
  {
    if OccursAt(s, p, from) then Some(from)
    else if from == |s| then None
    else IndexFrom(s, p, from + 1)
  }

  function IndexOf(s: String, p: String): Option<nat> { IndexFrom(s, p, 0) }

  lemma IndexOfIffContains(s: String, p: String)
    ensures IndexOf(s, p).Some? <==> Contains(s, p)
  {
    if IndexOf(s, p).Some? {
      assert OccursAt(s, p, IndexOf(s, p).value);
    }
  }

  // ---------------------------------------------------------------- split and join

  /** JavaScript's String.prototype.split with a non-empty string separator. */
  function Split(s: String, sep: String): (parts: seq<String>)
    requires sep != []
    ensures |parts| >= 1
    decreases |s|
  {
    match IndexOf(s, sep)
    case None => [s]
    case Some(i) => [s[..i]] + Split(s[i + |sep|..], sep)
  }

  /** JavaScript's Array.prototype.join on strings. */
  function Join(parts: seq<String>, sep: String): String {
    if parts == [] then []
    else if |parts| == 1 then parts[0]
    else parts[0] + sep + Join(parts[1..], sep)
  }

  lemma JoinCons(a: String, rest: seq<String>, sep: String)
    requires |rest| >= 1
    ensures Join([a] + rest, sep) == a + sep + Join(rest, sep)
  {
    assert ([a] + rest)[1..] == rest;
  }

  lemma SplitAt(s: String, sep: String, i: nat)
    requires sep != []
    requires IndexOf(s, sep) == Some(i)
    ensures i + |sep| <= |s|
    ensures Split(s, sep) == [s[..i]] + Split(s[i + |sep|..], sep)
    ensures s == s[..i] + sep + s[i + |sep|..]
  {
    assert OccursAt(s, sep, i);
    var head, tail := s[..i], s[i + |sep|..];
    assert s == head + sep + tail by {
      assert s[i..i + |sep|] == sep;
      assert s == s[..i] + s[i..i + |sep|] + s[i + |sep|..];
    }
  }

  /** Joining the pieces of a split with the same separator gives back the input. */
  lemma {:induction false} JoinSplit(s: String, sep: String)
    requires sep != []
    ensures Join(Split(s, sep), sep) == s
    decreases |s|
  {
    var idx := IndexOf(s, sep);
    if idx.Some? {
      var i := idx.value;
      SplitAt(s, sep, i);
      var rest := s[i + |sep|..];
      JoinSplit(rest, sep);
      JoinCons(s[..i], Split(rest, sep), sep);
    }
  }

  /** No piece of a split contains the separator. */
  lemma {:induction false} SplitPartsAvoidSeparator(s: String, sep: String)
    requires sep != []
    ensures forall k :: 0 <= k < |Split(s, sep)| ==> !Contains(Split(s, sep)[k], sep)
    decreases |s|
  {
    match IndexOf(s, sep)
    case None =>
      forall j: nat ensures !OccursAt(s, sep, j) { }
    case Some(i) =>
      var rest := s[i + |sep|..];
      SplitPartsAvoidSeparator(rest, sep);
      var head := s[..i];
      forall j: nat ensures !OccursAt(head, sep, j) {
        if OccursAt(head, sep, j) {
          assert s[j..j + |sep|] == head[j..j + |sep|];
          assert OccursAt(s, sep, j);
        }
      }
      assert Split(s, sep) == [head] + Split(rest, sep);
  }

  /** A string without c does not contain [c]. */
  lemma LacksCharNotFound(s: String, c: char)
    requires forall i :: 0 <= i < |s| ==> s[i] != c
    ensures IndexOf(s, [c]) == None
  {
    forall j: nat ensures !OccursAt(s, [c], j) {
      if j + 1 <= |s| { assert s[j..j + 1][0] == s[j]; }
    }
  }

  /** Splitting a + [c] + b on c, where neither side holds c, gives the two sides. */
  lemma SplitOnce(a: String, c: char, b: String)
    requires forall i :: 0 <= i < |a| ==> a[i] != c
    requires forall i :: 0 <= i < |b| ==> b[i] != c
    ensures Split(a + [c] + b, [c]) == [a, b]
  {
    var s := a + [c] + b;
    assert OccursAt(s, [c], |a|) by { assert s[|a|..|a| + 1] == [c]; }
    forall j: nat | j < |a| ensures !OccursAt(s, [c], j) {
      assert s[j..j + 1][0] == a[j];
    }
    assert IndexOf(s, [c]) == Some(|a|);
    SplitAt(s, [c], |a|);
    assert s[..|a|] == a && s[|a| + 1..] == b;
    LacksCharNotFound(b, c);
  }

  /** The pieces after the first of a split, joined again, are the text after the first separator. */
  lemma SplitTailJoin(s: String, sep: String)
    requires sep != []
    ensures match IndexOf(s, sep)
            case None => Join(Split(s, sep)[1..], sep) == []
            case Some(i) => Join(Split(s, sep)[1..], sep) == s[i + |sep|..]
  {
    match IndexOf(s, sep)
    case None =>
    case Some(i) =>
      JoinSplit(s[i + |sep|..], sep);
      assert Split(s, sep)[1..] == Split(s[i + |sep|..], sep);
  }

  /** The first piece of a split is the text before the first separator. */
  lemma SplitHead(s: String, sep: String)
    requires sep != []
    ensures match IndexOf(s, sep)
            case None => Split(s, sep)[0] == s
            case Some(i) => Split(s, sep)[0] == s[..i]
  {
  }

  // ---------------------------------------------------------------- replace

  /** Python's str.replace / JavaScript's replaceAll: leftmost, non-overlapping occurrences. */
  function ReplaceAll(s: String, pat: String, rep: String): (r: String)
    requires pat != []
    ensures |rep| == |pat| ==> |r| == |s|
    ensures (forall j: nat :: !OccursAt(s, pat, j)) ==> r == s
    decreases |s|
  {
    if |s| < |pat| then s
    else if s[..|pat|] == pat then assert OccursAt(s, pat, 0); rep + ReplaceAll(s[|pat|..], pat, rep)
    else
      assert forall j: nat :: OccursAt(s[1..], pat, j) ==> OccursAt(s, pat, j + 1) by {
        forall j: nat | OccursAt(s[1..], pat, j) ensures OccursAt(s, pat, j + 1) {
          assert s[1..][j..j + |pat|] == s[j + 1..j + 1 + |pat|];
        }
      }
      [s[0]] + ReplaceAll(s[1..], pat, rep)
  }

  lemma ReplaceWhole(pat: String, rep: String)
    requires pat != []
    ensures ReplaceAll(pat, pat, rep) == rep
  {
    assert pat[..|pat|] == pat && pat[|pat|..] == [];
  }

  /**
   * Replacing a pattern that starts with '.' in a name without '.' followed by
   * the pattern replaces just that suffix.
   */
  lemma {:induction false} ReplaceAfterDotless(name: String, pat: String, rep: String)
    requires pat != [] && pat[0] == '.'
    requires forall i :: 0 <= i < |name| ==> name[i] != '.'
    ensures ReplaceAll(name + pat, pat, rep) == name + rep
    decreases |name|
  {
    var s := name + pat;
    if name == [] {
      ReplaceWhole(pat, rep);
      assert s == pat;
    } else {
      assert s[..|pat|][0] == name[0];
      assert s[1..] == name[1..] + pat;
      ReplaceAfterDotless(name[1..], pat, rep);
      ConsTail(name, rep);
    }
  }

  lemma ConsTail(name: String, rest: String)
    requires name != []
    ensures [name[0]] + (name[1..] + rest) == name + rest
  {
  }

  /** Replacing an occurring pattern by a different one of the same length changes the string. */
  lemma {:induction false} ReplaceChanges(s: String, pat: String, rep: String)
    requires pat != [] && |rep| == |pat| && rep != pat
    requires Contains(s, pat)
    ensures ReplaceAll(s, pat, rep) != s
    decreases |s|
  {
    var i: nat :| i <= |s| && OccursAt(s, pat, i);
    var r := ReplaceAll(s, pat, rep);
    if s[..|pat|] == pat {
      assert r[..|pat|] == rep;
      assert r[..|pat|] != s[..|pat|];
    } else {
      assert i > 0;
      assert s[1..][i - 1..i - 1 + |pat|] == s[i..i + |pat|];
      assert OccursAt(s[1..], pat, i - 1);
      ReplaceChanges(s[1..], pat, rep);
      assert r == [s[0]] + ReplaceAll(s[1..], pat, rep);
      assert r[1..] == ReplaceAll(s[1..], pat, rep);
    }
  }

  // ---------------------------------------------------------------- numbers

  function DigitChar(d: nat): (c: char)
    requires d < 10
    ensures IsDigit(c)
  {
    ('0' as int + d) as char
  }

  function DigitValue(c: char): (d: nat)
    requires IsDigit(c)
    ensures d < 10
  {
    (c as int - '0' as int)
  }

  /** Decimal notation of a natural number, without leading zeros. */
  function NatToString(n: nat): (s: String)
    ensures |s| >= 1 && AllDigits(s)
    ensures |s| > 1 ==> s[0] != '0'
  {
    if n < 10 then [DigitChar(n)] else NatToString(n / 10) + [DigitChar(n % 10)]
  }

  /** The value of a string of decimal digits (leading zeros allowed). */
  function DigitsValue(s: String): nat
    requires AllDigits(s)
  {
    if s == [] then 0 else DigitsValue(s[..|s| - 1]) * 10 + DigitValue(s[|s| - 1])
  }

  lemma {:induction false} NatToStringValue(n: nat)
    ensures DigitsValue(NatToString(n)) == n
  {
    if n >= 10 {
      NatToStringValue(n / 10);
      var s := NatToString(n);
      assert s[..|s| - 1] == NatToString(n / 10);
    }
  }

  function Zeros(k: nat): (z: String)
    ensures |z| == k && AllDigits(z)
    ensures forall i :: 0 <= i < k ==> z[i] == '0'
  {
    if k == 0 then [] else ['0'] + Zeros(k - 1)
  }

  lemma {:induction false} LeadingZerosValue(k: nat, s: String)
    requires AllDigits(s)
    ensures DigitsValue(Zeros(k) + s) == DigitsValue(s)
    decreases |s|
  {
    if s == [] {
      ZerosValue(k);
      assert Zeros(k) + s == Zeros(k);
    } else {
      var t := Zeros(k) + s;
      assert t[..|t| - 1] == Zeros(k) + s[..|s| - 1];
      LeadingZerosValue(k, s[..|s| - 1]);
    }
  }

  lemma {:induction false} ZerosValue(k: nat)
    ensures DigitsValue(Zeros(k)) == 0
  {
    if k > 0 {
      ZerosValue(k - 1);
      assert Zeros(k)[..k - 1] == Zeros(k - 1) by {
        assert Zeros(k) == Zeros(k - 1) + ['0'];
      }
    }
  }

  /** Python's format(n, "0<width>d") for a natural number. */
  function ZeroPad(n: nat, width: nat): (s: String)
    ensures AllDigits(s) && |s| >= width
  {
    var d := NatToString(n);
    if |d| < width then Zeros(width - |d|) + d else d
  }

  lemma ZeroPadValue(n: nat, width: nat)
    ensures DigitsValue(ZeroPad(n, width)) == n
  {
    var d := NatToString(n);
    NatToStringValue(n);
    if |d| < width {
      assert ZeroPad(n, width) == Zeros(width - |d|) + d;
      LeadingZerosValue(width - |d|, d);
    } else {
      assert ZeroPad(n, width) == d;
    }
  }

  // ---------------------------------------------------------------- parseInt

  function HexValue(c: char): Option<nat> {
    if IsDigit(c) then Some(DigitValue(c))
    else if 'a' <= c <= 'f' then Some(c as int - 'a' as int + 10)
    else if 'A' <= c <= 'F' then Some(c as int - 'A' as int + 10)
    else None
  }

  function RadixDigit(c: char, radix: nat): Option<nat> {
    if radix == 16 then HexValue(c) else if IsDigit(c) then Some(DigitValue(c)) else None
  }

  /** Length of the longest prefix of s made of digits of the radix. */
  function DigitRun(s: String, radix: nat): (k: nat)
    ensures k <= |s|
    ensures forall i :: 0 <= i < k ==> RadixDigit(s[i], radix).Some?
    ensures k < |s| ==> RadixDigit(s[k], radix).None?
  {
    if s != [] && RadixDigit(s[0], radix).Some? then 1 + DigitRun(s[1..], radix) else 0
  }

  function RunValue(s: String, radix: nat): nat
    requires forall i :: 0 <= i < |s| ==> RadixDigit(s[i], radix).Some?
  {
    if s == [] then 0
    else RunValue(s[..|s| - 1], radix) * radix + RadixDigit(s[|s| - 1], radix).value
  }

  /** JavaScript's parseInt with no radix; None stands for NaN. */
  function ParseIntJs(s: String): Option<int> {
    ParseSigned(TrimStart(s, JsWhitespace))
  }

  /** An optional sign, then the unsigned part. */
  function ParseSigned(t: String): Option<int> {
    if t != [] && t[0] == '-' then
      (match ParseUnsigned(t[1..]) case None => None case Some(v) => Some(-(v as int)))
    else if t != [] && t[0] == '+' then
      (match ParseUnsigned(t[1..]) case None => None case Some(v) => Some(v))
    else
      (match ParseUnsigned(t) case None => None case Some(v) => Some(v))
  }

  /** A "0x"/"0X" prefix selects radix 16, anything else radix 10. */
  function ParseUnsigned(u: String): Option<nat> {
    if |u| >= 2 && u[0] == '0' && (u[1] == 'x' || u[1] == 'X') then ParseRadix(u[2..], 16)
    else ParseRadix(u, 10)
  }

  /** The value of the longest run of radix digits at the front; None when there is none. */
  function ParseRadix(digits: String, radix: nat): Option<nat> {
    var k := DigitRun(digits, radix);
    if k == 0 then None else Some(RunValue(digits[..k], radix))
  }

  lemma {:induction false} RunValueDecimal(s: String)
    requires AllDigits(s)
    ensures forall i :: 0 <= i < |s| ==> RadixDigit(s[i], 10).Some?
    ensures RunValue(s, 10) == DigitsValue(s)
    decreases |s|
  {
    if s != [] {
      RunValueDecimal(s[..|s| - 1]);
    }
  }

  lemma {:induction false} DigitRunOfDigits(d: String, rest: String)
    requires AllDigits(d)
    requires rest == [] || !IsDigit(rest[0])
    ensures DigitRun(d + rest, 10) == |d|
    decreases |d|
  {
    if d != [] {
      assert (d + rest)[1..] == d[1..] + rest;
      DigitRunOfDigits(d[1..], rest);
    } else {
      assert d + rest == rest;
    }
  }

  /**
   * parseInt reads back the decimal notation of n from the front of a string
   * whose next character is not a digit (as in "108 min").
   */
  lemma ParseRadixDigits(d: String, rest: String)
    requires d != [] && AllDigits(d)
    requires rest == [] || !IsDigit(rest[0])
    ensures ParseRadix(d + rest, 10) == Some(DigitsValue(d))
  {
    DigitRunOfDigits(d, rest);
    assert (d + rest)[..|d|] == d;
    RunValueDecimal(d);
  }

  /** parseInt gives NaN for a string that starts with neither space, sign nor digit. */
  lemma ParseIntJsNonNumeric(s: String)
    requires s != [] && !IsJsSpace(s[0]) && s[0] != '-' && s[0] != '+' && !IsDigit(s[0])
    ensures ParseIntJs(s) == None
  {
    TrimStartKeeps(s, JsWhitespace);
    assert ParseUnsigned(s) == ParseRadix(s, 10);
    assert DigitRun(s, 10) == 0;
  }

  lemma ParseIntJsPrefix(n: nat, rest: String)
    requires rest == [] || (!IsDigit(rest[0]) && rest[0] != 'x' && rest[0] != 'X')
    ensures ParseIntJs(NatToString(n) + rest) == Some(n)
  {
    var d := NatToString(n);
    DecimalIsUnsigned(d, rest);
    ParseRadixDigits(d, rest);
    NatToStringValue(n);
  }

  /** A numeral without a leading zero, or a single digit, is read in radix 10 with no sign and no space to skip. */
  lemma DecimalIsUnsigned(d: String, rest: String)
    requires |d| >= 1 && AllDigits(d) && (|d| > 1 ==> d[0] != '0')
    requires rest == [] || (!IsDigit(rest[0]) && rest[0] != 'x' && rest[0] != 'X')
    ensures ParseIntJs(d + rest) == ParseRadix(d + rest, 10)
  {
    var s := d + rest;
    assert s[0] == d[0] && IsDigit(s[0]);
    LeadingDigitKept(s);
    assert ParseSigned(s) == ParseUnsigned(s);
    if |d| >= 2 {
      assert s[0] != '0';
    } else if |s| >= 2 {
      assert s[1] == rest[0];
    }
  }

  lemma LeadingDigitKept(s: String)
    requires s != [] && IsDigit(s[0])
    ensures TrimStart(s, JsWhitespace) == s
  {
    assert !IsSpace(JsWhitespace, s[0]);
    TrimStartKeeps(s, JsWhitespace);
  }

  // ---------------------------------------------------------------- ordering

  /** Python's and JavaScript's string comparison a <= b: code point by code point, a prefix first. */
  function LexLe(a: String, b: String): bool {
    if a == [] then true
    else if b == [] then false
    else if a[0] != b[0] then a[0] < b[0]
    else LexLe(a[1..], b[1..])
  }

  lemma {:induction false} LexLeTotal(a: String, b: String)
    ensures LexLe(a, b) || LexLe(b, a)
    decreases |a|
  {
    if a != [] && b != [] && a[0] == b[0] {
      LexLeTotal(a[1..], b[1..]);
    }
  }

  lemma {:induction false} LexLeTransitive(a: String, b: String, c: String)
    requires LexLe(a, b) && LexLe(b, c)
    ensures LexLe(a, c)
    decreases |a|
  {
    if a != [] && b != [] && c != [] && a[0] == b[0] && b[0] == c[0] {
      LexLeTransitive(a[1..], b[1..], c[1..]);
    }
  }

  /** Strings agreeing before position k and ordered at k are strictly ordered. */
  lemma {:induction false} LexLtAt(a: String, b: String, k: nat)
    requires k < |a| && k < |b| && a[..k] == b[..k] && a[k] < b[k]
    ensures LexLe(a, b) && a != b
    decreases k
  {
    if k > 0 {
      assert a[0] == a[..k][0] == b[..k][0] == b[0];
      assert a[1..][..k - 1] == a[..k][1..] == b[..k][1..] == b[1..][..k - 1];
      LexLtAt(a[1..], b[1..], k - 1);
    }
  }

  /** A proper prefix comes strictly first. */
  lemma {:induction false} LexPrefixLt(a: String, b: String)
    requires |a| < |b| && a == b[..|a|]
    ensures LexLe(a, b) && a != b
    decreases |a|
  {
    if a != [] {
      assert a[0] == b[0];
      assert a[1..] == b[1..][..|a| - 1];
      LexPrefixLt(a[1..], b[1..]);
    }
  }

  /** Equal strings compare as equal, and only they do. */
  lemma {:induction false} LexLeAntisymmetric(a: String, b: String)
    requires LexLe(a, b) && LexLe(b, a)
    ensures a == b
    decreases |a|
  {
    if a != [] && b != [] {
      LexLeAntisymmetric(a[1..], b[1..]);
      assert a == [a[0]] + a[1..] && b == [b[0]] + b[1..];
    }
  }

  // ---------------------------------------------------------------- case

  /** Upper-casing of ASCII letters; every other character is kept. */
  function ToUpperAscii(s: String): (r: String)
    ensures |r| == |s|
    ensures forall i :: 0 <= i < |s| ==> r[i] == (if IsLower(s[i]) then (s[i] as int - 32) as char else s[i])
  {
    seq(|s|, i requires 0 <= i < |s| => if IsLower(s[i]) then (s[i] as int - 32) as char else s[i])
  }
}
