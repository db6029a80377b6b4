/**
 * String helpers the client relies on: Go's byte strings, `strings.Trim(s, "/")` and
 * the decimal rendering of an `int` by `%v`; and the search for a separator, which
 * serves only the reference parser of `Authorization` values.
 */
module Text {
  import opened Wrappers

  /** A byte, as Go's `byte`. */
  type byte = b: int | 0 <= b < 256

  /** Every character stands for one byte. */
  predicate IsByteString(s: string) {
    forall i :: 0 <= i < |s| ==> s[i] as int < 256
  }

  /** A Go `string`: an immutable sequence of bytes, one character per byte. */
  type GoString = s: string | IsByteString(s)

  /** Go's conversion `[]byte(s)`. */
  function Bytes(s: GoString): (b: seq<byte>)
    ensures |b| == |s|
    ensures forall i :: 0 <= i < |s| ==> b[i] == s[i] as int
  {
    seq(|s|, i requires 0 <= i < |s| => s[i] as int)
  }

  /** Go's conversion `string(b)`. */
  function FromBytes(b: seq<byte>): (s: GoString)
    ensures |s| == |b|
    ensures forall i :: 0 <= i < |b| ==> s[i] as int == b[i]
  {
    seq(|b|, i requires 0 <= i < |b| => b[i] as char)
  }

  /** The two conversions are inverse to each other. */
  lemma BytesRoundTrip(s: GoString)
    ensures FromBytes(Bytes(s)) == s
  {
    var t := FromBytes(Bytes(s));
    assert |t| == |s|;
    forall i | 0 <= i < |s| ensures t[i] == s[i] {
      assert t[i] as int == s[i] as int;
    }
  }

  // ---------------------------------------------------------------------------
  // strings.Trim(s, "/")
  // ---------------------------------------------------------------------------

  predicate AllSlashes(s: string) {
    forall i :: 0 <= i < |s| ==> s[i] == '/'
  }

  /** Neither the first nor the last character is a slash. */
  predicate NoEdgeSlash(s: string) {
    s == [] || (s[0] != '/' && s[|s| - 1] != '/')
  }

  /** `r` is what is left of `s` after removing some slashes at the front and some at the back. */
  ghost predicate SlashPadded(s: string, r: string) {
    exists i, j :: 0 <= i <= j <= |s| && s[i..j] == r && AllSlashes(s[..i]) && AllSlashes(s[j..])
  }

  /** Removes every leading slash. */
  function TrimLeftSlashes(s: string): (r: string)
    ensures |r| <= |s| && r == s[|s| - |r|..]
    ensures AllSlashes(s[..|s| - |r|])
    ensures r == [] || r[0] != '/'
    decreases |s|
  {
    if |s| > 0 && s[0] == '/' then
      var r := TrimLeftSlashes(s[1..]);
      assert s[1..][|s| - 1 - |r|..] == s[|s| - |r|..];
      assert s[..|s| - |r|] == ['/'] + s[1..][..|s| - 1 - |r|];
      r
    else
      s
  }

  /** Removes every trailing slash. */
  function TrimRightSlashes(s: string): (r: string)
    ensures |r| <= |s| && r == s[..|r|]
    ensures AllSlashes(s[|r|..])
    ensures r == [] || r[|r| - 1] != '/'
    decreases |s|
  {
    if |s| > 0 && s[|s| - 1] == '/' then
      var r := TrimRightSlashes(s[..|s| - 1]);
      assert s[..|s| - 1][..|r|] == s[..|r|];
      assert s[|r|..] == s[..|s| - 1][|r|..] + ['/'];
      r
    else
      s
  }

  /** `strings.Trim(s, "/")`: the leading slashes go first, then the trailing ones. */
  function TrimSlashes(s: string): (r: string)
    ensures |r| <= |s|
    ensures NoEdgeSlash(r)
  {
    TrimRightSlashes(TrimLeftSlashes(s))
  }

  /** Trimming removes slashes, and only slashes, from the two ends. */
  lemma TrimSlashesPadded(s: string)
    ensures SlashPadded(s, TrimSlashes(s))
  {
    var l := TrimLeftSlashes(s);
    var r := TrimRightSlashes(l);
    var i := |s| - |l|;
    assert s[i..i + |r|] == r;
    assert s[i + |r|..] == l[|r|..];
    assert AllSlashes(s[..i]) && AllSlashes(s[i + |r|..]);
  }

  /** A string with no slash at either end is left as it is. */
  lemma TrimUnpadded(s: string)
    requires NoEdgeSlash(s)
    ensures TrimSlashes(s) == s
  {
  }

  /** Trimming twice trims no more than trimming once. */
  lemma TrimIdempotent(s: string)
    ensures TrimSlashes(TrimSlashes(s)) == TrimSlashes(s)
  {
    TrimUnpadded(TrimSlashes(s));
  }

  /** One more slash in front changes nothing. */
  lemma {:induction false} TrimLeadingSlash(s: string)
    ensures TrimSlashes("/" + s) == TrimSlashes(s)
  {
    assert ("/" + s)[1..] == s;
  }

  lemma {:induction false} TrimLeftAppendSlash(s: string)
    requires !AllSlashes(s)
    ensures TrimLeftSlashes(s + "/") == TrimLeftSlashes(s) + "/"
    decreases |s|
  {
    if s[0] == '/' {
      assert (s + "/")[1..] == s[1..] + "/";
      assert !AllSlashes(s[1..]) by {
        var k :| 0 <= k < |s| && s[k] != '/';
        assert s[1..][k - 1] == s[k];
      }
      TrimLeftAppendSlash(s[1..]);
    }
  }

  lemma AllSlashesTrimLeft(s: string)
    requires AllSlashes(s)
    ensures TrimLeftSlashes(s) == []
  {
  }

  /** One more slash at the back changes nothing. */
  lemma TrimTrailingSlash(s: string)
    ensures TrimSlashes(s + "/") == TrimSlashes(s)
  {
    if AllSlashes(s) {
      TrimTrailingOnlySlashes(s);
    } else {
      TrimTrailingAfterText(s);
    }
  }

  lemma TrimTrailingOnlySlashes(s: string)
    requires AllSlashes(s)
    ensures TrimSlashes(s + "/") == TrimSlashes(s) == []
  {
    assert AllSlashes(s + "/");
    AllSlashesTrimLeft(s);
    AllSlashesTrimLeft(s + "/");
  }

  lemma TrimTrailingAfterText(s: string)
    requires !AllSlashes(s)
    ensures TrimSlashes(s + "/") == TrimSlashes(s)
  {
    var l := TrimLeftSlashes(s);
    TrimLeftAppendSlash(s);
    TrimRightDropsSlash(l);
  }

  lemma TrimRightDropsSlash(l: string)
    ensures TrimRightSlashes(l + "/") == TrimRightSlashes(l)
  {
    assert (l + "/")[..|l + "/"| - 1] == l;
  }

  // ---------------------------------------------------------------------------
  // Decimal rendering of integers (`%v` on an int)
  // ---------------------------------------------------------------------------

  predicate IsDigit(c: char) {
    '0' <= c <= '9'
  }

  predicate AllDigits(s: string) {
    forall i :: 0 <= i < |s| ==> IsDigit(s[i])
  }

  function DigitChar(d: nat): (c: char)
    requires d < 10
    ensures IsDigit(c) && c as int - '0' as int == d
  {
    ('0' as int + d) as char
  }

  /** The number a string of decimal digits denotes. */
  function DigitsValue(s: string): nat
    requires AllDigits(s)
  {
    if s == [] then 0 else 10 * DigitsValue(s[..|s| - 1]) + (s[|s| - 1] as int - '0' as int)
  }

  /** The decimal digits of `n`, most significant first, without leading zeros. */
  function FormatNat(n: nat): (r: string)
    ensures |r| >= 1 && AllDigits(r)
    ensures r[0] == '0' ==> n == 0 && |r| == 1
    decreases n
  {
    if n < 10 then [DigitChar(n)] else FormatNat(n / 10) + [DigitChar(n % 10)]
  }

  /** Reading the digits back gives the number. */
  lemma {:induction false} FormatNatValue(n: nat)
    ensures DigitsValue(FormatNat(n)) == n
    decreases n
  {
    var r := FormatNat(n);
    if n >= 10 {
      FormatNatValue(n / 10);
      assert r[..|r| - 1] == FormatNat(n / 10);
    }
  }

  /** `strconv.Itoa(n)`, which is what `%v` prints for an `int`. */
  function FormatInt(n: int): (r: string)
    ensures n >= 0 ==> |r| >= 1 && AllDigits(r) && DigitsValue(r) == n && (r[0] == '0' ==> r == "0")
    ensures n < 0 ==> |r| >= 2 && r[0] == '-' && AllDigits(r[1..]) && DigitsValue(r[1..]) == -n && r[1] != '0'
  {
    if n < 0 then
      FormatNatValue(-n);
      "-" + FormatNat(-n)
    else
      FormatNatValue(n);
      FormatNat(n)
  }

  // ---------------------------------------------------------------------------
  // Searching
  // ---------------------------------------------------------------------------

  /** The position of the first `c` in `s`, if any. */
  function IndexOf(s: string, c: char): (r: Option<nat>)
    ensures r.None? <==> c !in s
    ensures r.Some? ==> r.value < |s| && s[r.value] == c && c !in s[..r.value]
  {
    if s == [] then None
    else if s[0] == c then Some(0)
    else match IndexOf(s[1..], c)
      case None => None
      case Some(k) => Some(k + 1)
  }

  /** In `a + [c] + b` with no `c` in `a`, the first `c` is the one after `a`. */
  lemma IndexOfSeparator(a: string, c: char, b: string)
    requires c !in a
    ensures IndexOf(a + [c] + b, c) == Some(|a|)
    ensures (a + [c] + b)[..|a|] == a && (a + [c] + b)[|a| + 1..] == b
  {
    var s := a + [c] + b;
    assert s[|a|] == c;
    assert s[..|a|] == a;
    assert s[|a| + 1..] == b;
  }

  /** What follows a prefix is what was appended to it. */
  lemma PrefixOfAppend(p: string, s: string)
    ensures IsPrefix(p, p + s) && (p + s)[|p|..] == s
  {
    assert (p + s)[..|p|] == p;
  }

  lemma AppendAssociative<T>(a: seq<T>, b: seq<T>, c: seq<T>)
    ensures (a + b) + c == a + (b + c)
  {
  }

  predicate IsPrefix(p: string, s: string) {
    |p| <= |s| && s[..|p|] == p
  }

  predicate IsSuffix(p: string, s: string) {
    |p| <= |s| && s[|s| - |p|..] == p
  }
}
