/**
 The session cookie: printing it (backend/src/auth/session.cpp) and finding it again in a Cookie
 header (backend/src/http/middleware.cpp).  Characters are bytes; case is that of the C locale.
 */
module SessionCookies {
  import opened Wrappers

  const NAME := "minioj_sid"
  const ID_LENGTH := 64

  predicate IsBlank(ch: char) { ch == ' ' || ch == '\t' }

  function ToLower(ch: char): char {
    if 'A' <= ch <= 'Z' then (ch as int + 32) as char else ch
  }

  // The same character, or an upper-case letter and its lower-case form.
  predicate SameLetter(x: char, y: char) {
    || x == y
    || ('A' <= x <= 'Z' && 'a' <= y <= 'z' && x as int - 'A' as int == y as int - 'a' as int)
    || ('a' <= x <= 'z' && 'A' <= y <= 'Z' && x as int - 'a' as int == y as int - 'A' as int)
  }

  lemma SameLetterIff(x: char, y: char)
    ensures ToLower(x) == ToLower(y) <==> SameLetter(x, y)
  {
  }

  predicate SameIgnoringCase(a: string, b: string) {
    |a| == |b| && forall i | 0 <= i < |a| :: SameLetter(a[i], b[i])
  }

  method EqualsIgnoreCase(a: string, b: string) returns (same: bool)
    ensures same <==> SameIgnoringCase(a, b)
  {
    if |a| != |b| {
      return false;
    }
    for i := 0 to |a|
      invariant forall j | 0 <= j < i :: SameLetter(a[j], b[j])
    {
      SameLetterIff(a[i], b[i]);
      if ToLower(a[i]) != ToLower(b[i]) {
        return false;
      }
    }
    return true;
  }

  // Position of the first ch at or after `from`, |s| if there is none.
  function Find(s: string, ch: char, from: nat): (r: nat)
    requires from <= |s|
    ensures from <= r <= |s| && (r < |s| ==> s[r] == ch)
    ensures forall i | from <= i < r :: s[i] != ch
    decreases |s| - from
  {
    if from == |s| || s[from] == ch then from else Find(s, ch, from + 1)
  }

  function IndexOf(s: string, ch: char): nat { Find(s, ch, 0) }

  lemma IndexOfIs(s: string, ch: char, n: nat)
    requires n <= |s| && (n < |s| ==> s[n] == ch) && forall i | 0 <= i < n :: s[i] != ch
    ensures IndexOf(s, ch) == n
  {
  }

  function TrimLeft(s: string): string {
    if s != "" && IsBlank(s[0]) then TrimLeft(s[1..]) else s
  }

  function TrimRight(s: string): string {
    if s != "" && IsBlank(s[|s| - 1]) then TrimRight(s[..|s| - 1]) else s
  }

  function Trim(s: string): string { TrimRight(TrimLeft(s)) }

  // s[i..j] is s but for blanks before i and from j on.
  ghost predicate BlankOutside(s: string, i: int, j: int) {
    0 <= i <= j <= |s| && forall k | 0 <= k < i || j <= k < |s| :: IsBlank(s[k])
  }

  // r is s without its leading and trailing blanks.
  ghost predicate TrimsBlanks(s: string, r: string) {
    && (r != "" ==> !IsBlank(r[0]) && !IsBlank(r[|r| - 1]))
    && exists i, j :: BlankOutside(s, i, j) && r == s[i..j]
  }

  // remove_prefix, one blank at a time.
  method TrimFront(key: string) returns (r: string, ghost i: nat)
    ensures r == TrimLeft(key) && (r != "" ==> !IsBlank(r[0]))
    ensures BlankOutside(key, i, |key|) && r == key[i..]
  {
    r, i := key, 0;
    while r != "" && IsBlank(r[0])
      invariant TrimLeft(r) == TrimLeft(key)
      invariant BlankOutside(key, i, |key|) && r == key[i..]
      decreases |r|
    {
      r, i := r[1..], i + 1;
    }
  }

  // remove_suffix.
  method TrimBack(key: string) returns (r: string, ghost j: nat)
    ensures r == TrimRight(key) && (r != "" ==> !IsBlank(r[|r| - 1]))
    ensures BlankOutside(key, 0, j) && r == key[..j]
  {
    r, j := key, |key|;
    while r != "" && IsBlank(r[|r| - 1])
      invariant TrimRight(r) == TrimRight(key)
      invariant BlankOutside(key, 0, j) && r == key[..j]
      decreases |r|
    {
      r, j := r[..|r| - 1], j - 1;
    }
  }

  method TrimKey(key: string) returns (r: string)
    ensures r == Trim(key) && TrimsBlanks(key, r)
  {
    ghost var i: nat, j: nat;
    r, i := TrimFront(key);
    ghost var front := r;
    r, j := TrimBack(r);
    TrimmedBoth(key, front, i, j);
  }

  lemma {:induction false} TrimLeftMeans(s: string) returns (i: nat)
    ensures BlankOutside(s, i, |s|) && TrimLeft(s) == s[i..]
    ensures TrimLeft(s) != "" ==> !IsBlank(TrimLeft(s)[0])
  {
    if s != "" && IsBlank(s[0]) {
      var j := TrimLeftMeans(s[1..]);
      i := j + 1;
      assert s[1..][j..] == s[i..];
      forall k | 0 <= k < i ensures IsBlank(s[k]) {
        assert k > 0 ==> s[1..][k - 1] == s[k];
      }
    } else {
      i := 0;
    }
  }

  lemma {:induction false} TrimRightMeans(s: string) returns (j: nat)
    ensures BlankOutside(s, 0, j) && TrimRight(s) == s[..j]
    ensures TrimRight(s) != "" ==> !IsBlank(TrimRight(s)[|TrimRight(s)| - 1])
  {
    if s != "" && IsBlank(s[|s| - 1]) {
      j := TrimRightMeans(s[..|s| - 1]);
      assert s[..|s| - 1][..j] == s[..j];
    } else {
      j := |s|;
    }
  }

  /** There is exactly one way to cut the blanks off both ends, and it is Trim. */
  lemma TrimIff(s: string, r: string)
    ensures TrimsBlanks(s, r) <==> r == Trim(s)
  {
    var i := TrimLeftMeans(s);
    var j := TrimRightMeans(TrimLeft(s));
    TrimmedBoth(s, TrimLeft(s), i, j);
    assert Trim(s) == s[i..i + j];
    if TrimsBlanks(s, r) {
      var k, l :| BlankOutside(s, k, l) && r == s[k..l];
      SameCut(s, i, i + j, k, l);
    }
  }

  lemma SameCut(s: string, i: int, j: int, k: int, l: int)
    requires BlankOutside(s, i, j) && (i < j ==> !IsBlank(s[i]) && !IsBlank(s[j - 1]))
    requires BlankOutside(s, k, l) && (k < l ==> !IsBlank(s[k]) && !IsBlank(s[l - 1]))
    ensures s[i..j] == s[k..l]
  {
  }

  lemma TrimmedBoth(key: string, front: string, i: nat, j: nat)
    requires BlankOutside(key, i, |key|) && front == key[i..] && BlankOutside(front, 0, j)
    ensures BlankOutside(key, i, i + j) && front[..j] == key[i..i + j]
  {
    forall k | 0 <= k < i || i + j <= k < |key| ensures IsBlank(key[k]) {
      if k >= i {
        assert front[k - i] == key[k];
      }
    }
  }

  // ---- What a cookie-string means ----

  // The `;`-separated segments of a cookie-string.
  function Split(s: string): (segments: seq<string>)
    ensures |segments| > 0
    decreases |s|
  {
    var i := IndexOf(s, ';');
    if i == |s| then [s] else [s[..i]] + Split(s[i + 1..])
  }

  // The value of a name=value segment whose trimmed name is the given one up to case.
  function Lookup(segment: string, name: string): Option<string> {
    var eq := IndexOf(segment, '=');
    if eq < |segment| && SameIgnoringCase(Trim(segment[..eq]), name) then Some(segment[eq + 1..]) else None
  }

  /** A segment gives a value exactly if it is a name, an equals sign and that value, where the name, without blanks at
      its ends, is the given one up to case. */
  lemma LookupIff(segment: string, name: string, value: string)
    ensures Lookup(segment, name) == Some(value)
       <==> exists key, bare :: NamesValue(segment, key, bare, value) && SameIgnoringCase(bare, name)
  {
    hide Trim, SameIgnoringCase;
    var eq := IndexOf(segment, '=');
    if Lookup(segment, name) == Some(value) {
      TrimIff(segment[..eq], Trim(segment[..eq]));
      assert segment == segment[..eq] + "=" + value;
      assert NamesValue(segment, segment[..eq], Trim(segment[..eq]), value);
    }
    if key, bare :| NamesValue(segment, key, bare, value) && SameIgnoringCase(bare, name) {
      TrimIff(key, bare);
      assert forall i | 0 <= i < |key| :: segment[i] == key[i] && key[i] in key;
      IndexOfIs(segment, '=', |key|);
      assert segment[..|key|] == key && segment[|key| + 1..] == value;
    }
  }

  ghost predicate NamesValue(segment: string, key: string, bare: string, value: string) {
    segment == key + "=" + value && '=' !in key && TrimsBlanks(key, bare)
  }

  function Or(a: Option<string>, b: Option<string>): Option<string> { if a.Some? then a else b }

  function FirstMatch(segments: seq<string>, name: string): Option<string> {
    if segments == [] then None else Or(Lookup(segments[0], name), FirstMatch(segments[1..], name))
  }

  // The value read from a cookie-string, segment by segment.
  function CookieValue(cookies: string, name: string): Option<string>
    decreases |cookies|
  {
    var i := IndexOf(cookies, ';');
    Or(Lookup(cookies[..i], name), if i < |cookies| then CookieValue(cookies[i + 1..], name) else None)
  }

  /** It is the value of the first `;`-separated segment with the name. */
  lemma {:induction false} CookieValueIsFirstMatch(cookies: string, name: string)
    ensures CookieValue(cookies, name) == FirstMatch(Split(cookies), name)
    decreases |cookies|
  {
    var i := IndexOf(cookies, ';');
    if i < |cookies| {
      CookieValueIsFirstMatch(cookies[i + 1..], name);
      FirstMatchCons(cookies[..i], Split(cookies[i + 1..]), name);
    } else {
      assert cookies[..i] == cookies;
      FirstMatchCons(cookies, [], name);
      assert [cookies] + [] == [cookies];
    }
  }

  lemma FirstMatchCons(p: string, rest: seq<string>, name: string)
    ensures FirstMatch([p] + rest, name) == Or(Lookup(p, name), FirstMatch(rest, name))
  {
    assert ([p] + rest)[1..] == rest;
  }

  lemma {:induction false} TrimLeftSkips(s: string, n: nat)
    requires n <= |s| && forall i | 0 <= i < n :: IsBlank(s[i])
    ensures TrimLeft(s[n..]) == TrimLeft(s)
  {
    if n > 0 {
      TrimLeftSkips(s[1..], n - 1);
      assert s[1..][n - 1..] == s[n..];
    } else {
      assert s[0..] == s;
    }
  }

  // Leading blanks of a segment do not matter.
  lemma LookupSkips(segment: string, n: nat, name: string)
    requires n <= |segment| && forall i | 0 <= i < n :: IsBlank(segment[i])
    ensures Lookup(segment[n..], name) == Lookup(segment, name)
  {
    var eq := IndexOf(segment, '=');
    assert n <= eq;
    IndexOfIs(segment[n..], '=', eq - n);
    if eq < |segment| {
      TrimLeftSkips(segment[..eq], n);
      assert segment[n..][..eq - n] == segment[..eq][n..];
      assert segment[n..][eq - n + 1..] == segment[eq + 1..];
    }
  }

  // What is read from position i on; nothing past the end.
  function From(s: string, i: nat, name: string): Option<string> {
    if i <= |s| then CookieValue(s[i..], name) else None
  }

  lemma ReadSegment(s: string, start: nat, end: nat, name: string)
    requires start <= end <= |s| && (end < |s| ==> s[end] == ';') && forall i | start <= i < end :: s[i] != ';'
    ensures From(s, start, name) == Or(Lookup(s[start..end], name), From(s, end + 1, name))
  {
    var rest := s[start..];
    IndexOfIs(rest, ';', end - start);
    assert rest[..end - start] == s[start..end];
    assert end < |s| ==> rest[end - start + 1..] == s[end + 1..];
  }

  // Reading on from `start` when only blanks precede `index`.
  lemma ScanStep(s: string, start: nat, index: nat, name: string)
    requires start <= index <= |s| && forall i | start <= i < index :: IsBlank(s[i])
    ensures From(s, start, name)
         == Or(Lookup(s[index..Find(s, ';', index)], name), From(s, Find(s, ';', index) + 1, name))
  {
    var end := Find(s, ';', index);
    ReadSegment(s, start, end, name);
    LookupSkips(s[start..end], index - start, name);
    assert s[start..end][index - start..] == s[index..end];
  }

  /** The index-scanning loop: it terminates, and reads the first segment with the name. */
  method ReadCookieValue(cookies: string, name: string) returns (value: Option<string>)
    ensures value == CookieValue(cookies, name)
  {
    var index := 0;
    assert cookies[0..] == cookies && From(cookies, 0, name) == CookieValue(cookies, name);
    hide *;
    while index < |cookies|
      invariant 0 <= index <= |cookies| + 1
      invariant CookieValue(cookies, name) == From(cookies, index, name)
      decreases |cookies| + 1 - index
    {
      var start := index;
      index := SkipBlanks(cookies, index);
      if index >= |cookies| {
        OnlyBlanksLeft(cookies, start, name);
        return None;
      }
      var end := Find(cookies, ';', index);
      value := ReadPair(cookies[index..end], name);
      ScanTurn(cookies, start, index, end, name);
      if value.Some? {
        return;
      }
      index := end + 1;
    }
    NothingAtEnd(cookies, name);
    return None;
  }

  // One turn of the loop: the pair's value, or else what is read from behind it.
  lemma ScanTurn(s: string, start: nat, index: nat, end: nat, name: string)
    requires start <= index <= |s| && (forall i | start <= i < index :: IsBlank(s[i])) && end == Find(s, ';', index)
    ensures var value := Lookup(s[index..end], name);
            From(s, start, name) == if value.Some? then value else From(s, end + 1, name)
  {
    ScanStep(s, start, index, name);
  }

  lemma OnlyBlanksLeft(s: string, start: nat, name: string)
    requires start <= |s| && forall i | start <= i < |s| :: IsBlank(s[i])
    ensures From(s, start, name) == None
  {
    ScanStep(s, start, |s|, name);
    NothingAtEnd(s, name);
  }

  lemma NothingAtEnd(s: string, name: string)
    ensures From(s, |s|, name) == None && From(s, |s| + 1, name) == None
    ensures Lookup(s[|s|..], name) == None
  {
    assert s[|s|..] == "";
    assert CookieValue("", name) == None;
  }

  method SkipBlanks(cookies: string, from: nat) returns (index: nat)
    requires from <= |cookies|
    ensures from <= index <= |cookies| && forall i | from <= i < index :: IsBlank(cookies[i])
    ensures index < |cookies| ==> !IsBlank(cookies[index])
  {
    index := from;
    while index < |cookies| && IsBlank(cookies[index])
      invariant from <= index <= |cookies|
      invariant forall i | from <= i < index :: IsBlank(cookies[i])
    {
      index := index + 1;
    }
  }

  // The body of the scanning loop for one pair.
  method ReadPair(pair: string, name: string) returns (value: Option<string>)
    ensures value == Lookup(pair, name)
  {
    var eq := IndexOf(pair, '=');
    if eq == |pair| {
      return None;
    }
    var key := TrimKey(pair[..eq]);
    var same := EqualsIgnoreCase(key, name);
    return if same then Some(pair[eq + 1..]) else None;
  }

  // ---- Session ids ----

  type Byte = b: int | 0 <= b < 256

  predicate IsHexDigit(ch: char) { '0' <= ch <= '9' || 'a' <= ch <= 'f' || 'A' <= ch <= 'F' }

  /** The characters the scanner skips, and those a session id is made of. */
  lemma CharacterClasses(ch: char)
    ensures IsBlank(ch) <==> ch in " \t"
    ensures IsHexDigit(ch) <==> ch in "0123456789abcdefABCDEF"
  {
  }

  ghost predicate IsShape(s: string) {
    |s| == 64 && forall i | 0 <= i < |s| :: IsHexDigit(s[i])
  }

  method IsSessionIdShape(value: string) returns (ok: bool)
    ensures ok <==> IsShape(value)
  {
    if |value| != ID_LENGTH {
      return false;
    }
    for i := 0 to |value|
      invariant forall j | 0 <= j < i :: IsHexDigit(value[j])
    {
      if !IsHexDigit(value[i]) {
        return false;
      }
    }
    return true;
  }

  function HexDigit(n: int): char
    requires 0 <= n < 16
  {
    if n < 10 then ('0' as int + n) as char else ('a' as int + n - 10) as char
  }

  function HexValue(ch: char): int
    requires IsHexDigit(ch)
  {
    if ch <= '9' then ch as int - '0' as int
    else if ch <= 'F' then ch as int - 'A' as int + 10
    else ch as int - 'a' as int + 10
  }

  // s is a two-digit hexadecimal writing of the bytes, which it therefore determines.
  ghost predicate Encodes(s: string, bytes: seq<Byte>) {
    && |s| == 2 * |bytes|
    && forall i | 0 <= i < |bytes| ::
         && IsHexDigit(s[2 * i]) && IsHexDigit(s[2 * i + 1])
         && 16 * HexValue(s[2 * i]) + HexValue(s[2 * i + 1]) == bytes[i]
  }

  function HexByte(b: Byte): string { [HexDigit(b / 16), HexDigit(b % 16)] }

  lemma EncodesSnoc(s: string, bytes: seq<Byte>, b: Byte)
    requires Encodes(s, bytes)
    ensures Encodes(s + HexByte(b), bytes + [b])
  {
    var t := s + HexByte(b);
    forall i | 0 <= i < |bytes|
      ensures t[2 * i] == s[2 * i] && t[2 * i + 1] == s[2 * i + 1]
    {
    }
    assert HexValue(HexDigit(b / 16)) == b / 16 && HexValue(HexDigit(b % 16)) == b % 16;
  }

  function Hex(bytes: seq<Byte>): string {
    if bytes == [] then "" else Hex(bytes[..|bytes| - 1]) + HexByte(bytes[|bytes| - 1])
  }

  /** The writing determines the bytes, and 32 of them make a session id. */
  lemma {:induction false} HexEncodes(bytes: seq<Byte>)
    ensures Encodes(Hex(bytes), bytes)
    ensures |bytes| == 32 ==> IsShape(Hex(bytes))
  {
    if bytes != [] {
      var n := |bytes| - 1;
      HexEncodes(bytes[..n]);
      EncodesSnoc(Hex(bytes[..n]), bytes[..n], bytes[n]);
      assert bytes == bytes[..n] + [bytes[n]];
    }
    EncodingHasShape(Hex(bytes), bytes);
  }

  lemma EncodingHasShape(s: string, bytes: seq<Byte>)
    requires Encodes(s, bytes)
    ensures |bytes| == 32 ==> IsShape(s)
  {
    forall i | 0 <= i < |s| ensures IsHexDigit(s[i]) {
      assert i == 2 * (i / 2) || i == 2 * (i / 2) + 1;
      assert IsHexDigit(s[2 * (i / 2)]) && IsHexDigit(s[2 * (i / 2) + 1]);
    }
  }

  /** randomHex after the read: two lower-case digits for each byte. */
  method RandomHex(buffer: seq<Byte>) returns (r: Result<string, string>)
    ensures r.Failure? <==> |buffer| == 0 || |buffer| > 32
    ensures r.Success? ==> r.value == Hex(buffer)
  {
    if |buffer| == 0 || |buffer| > 32 {
      return Failure("session id entropy out of range");
    }
    var value := "";
    for index := 0 to |buffer|
      invariant value == Hex(buffer[..index])
    {
      assert buffer[..index + 1][..index] == buffer[..index];
      value := value + HexByte(buffer[index]);
    }
    assert buffer[..|buffer|] == buffer;
    return Success(value);
  }

  /** The digits are lower-case ones. */
  lemma {:induction false} HexIsLowerCase(bytes: seq<Byte>)
    ensures forall i | 0 <= i < |Hex(bytes)| :: '0' <= Hex(bytes)[i] <= '9' || 'a' <= Hex(bytes)[i] <= 'f'
  {
    if bytes != [] {
      HexIsLowerCase(bytes[..|bytes| - 1]);
    }
  }

  /** No two byte strings have the same writing. */
  lemma HexIsInjective(a: seq<Byte>, b: seq<Byte>)
    requires Hex(a) == Hex(b)
    ensures a == b
  {
    HexEncodes(a);
    HexEncodes(b);
  }

  // ---- Printing the cookie ----

  function Decimal(n: nat): (r: string)
    ensures ';' !in r && '=' !in r
  {
    var digit := ('0' as int + n % 10) as char;
    if n < 10 then [digit] else Decimal(n / 10) + [digit]
  }

  // The number a string of decimal digits stands for.
  function ReadDecimal(s: string): int {
    if s == "" then 0 else 10 * ReadDecimal(s[..|s| - 1]) + (s[|s| - 1] as int - '0' as int)
  }

  lemma ReadSnoc(s: string, ch: char)
    ensures ReadDecimal(s + [ch]) == 10 * ReadDecimal(s) + (ch as int - '0' as int)
  {
    assert (s + [ch])[..|s|] == s;
  }

  // Decimal digits that stand for n.
  ghost predicate IsDecimal(digits: string, n: nat) {
    ReadDecimal(digits) == n && forall i | 0 <= i < |digits| :: '0' <= digits[i] <= '9'
  }

  /** The digits of a number read back as that number. */
  lemma {:induction false} DecimalReadsBack(n: nat)
    ensures IsDecimal(Decimal(n), n)
  {
    var digit := ('0' as int + n % 10) as char;
    if n < 10 {
      ReadSnoc("", digit);
      assert Decimal(n) == "" + [digit];
    } else {
      DecimalReadsBack(n / 10);
      ReadSnoc(Decimal(n / 10), digit);
    }
  }

  lemma SplitAt(a: string, b: string)
    requires ';' !in a
    ensures Split(a + ";" + b) == [a] + Split(b)
  {
    var s := a + ";" + b;
    assert forall i | 0 <= i < |a| :: s[i] == a[i] && a[i] in a;
    IndexOfIs(s, ';', |a|);
    assert s[..|a|] == a && s[|a| + 1..] == b;
  }

  lemma SplitWhole(a: string)
    requires ';' !in a
    ensures Split(a) == [a]
  {
    IndexOfIs(a, ';', |a|);
  }

  // Appending one more attribute to a header already printed appends one more segment.
  lemma {:induction false} SplitAppend(s: string, a: string)
    requires ';' !in a
    ensures Split(s + ";" + a) == Split(s) + [a]
    decreases |s|
  {
    var i := IndexOf(s, ';');
    SplitWhole(a);
    if i == |s| {
      SplitAt(s, a);
    } else {
      var rest := s[i + 1..];
      SplitAppend(rest, a);
      assert s + ";" + a == s[..i] + ";" + (rest + ";" + a);
      SplitAt(s[..i], rest + ";" + a);
    }
  }

  // appendFlag on a non-empty header.
  method AppendFlag(out: string, flag: string) returns (r: string)
    requires ';' !in flag
    ensures r == out + ("; " + flag) && Split(r) == Split(out) + [" " + flag]
  {
    r := out + ("; " + flag);
    SplitAppend(out, " " + flag);
    assert r == out + ";" + (" " + flag);
  }

  const PATH := "Path=/"
  const HTTP_ONLY := "HttpOnly"
  const SAME_SITE := "SameSite=Lax"
  const MAX_AGE := "Max-Age="
  const SECURE := "Secure"

  // The pair and its attributes, as the segments of a Set-Cookie header.
  function Segments(pair: string, age: Option<nat>, secure: bool): seq<string> {
    var always := [pair] + [" " + PATH] + [" " + HTTP_ONLY] + [" " + SAME_SITE];
    var aged := if age.Some? then always + [" " + (MAX_AGE + Decimal(age.value))] else always;
    if secure then aged + [" " + SECURE] else aged
  }

  // The header written out, with these digits for the age.
  ghost function HeaderText(pair: string, age: Option<nat>, secure: bool, digits: string): string {
    var always := pair + "; Path=/; HttpOnly; SameSite=Lax";
    var aged := if age.Some? then always + ("; Max-Age=" + digits) else always;
    if secure then aged + "; Secure" else aged
  }

  // The header is that text, with digits that read as the age.
  ghost predicate IsHeader(out: string, pair: string, age: Option<nat>, secure: bool) {
    exists digits :: out == HeaderText(pair, age, secure, digits) && (age.Some? ==> IsDecimal(digits, age.value))
  }

  lemma FixedTexts()
    ensures ("; " + PATH) + ("; " + HTTP_ONLY) + ("; " + SAME_SITE) == "; Path=/; HttpOnly; SameSite=Lax"
    ensures "; " + SECURE == "; Secure" && "; " + MAX_AGE == "; Max-Age="
  {
  }

  lemma AgeText(digits: string)
    ensures "; " + (MAX_AGE + digits) == "; Max-Age=" + digits
  {
    assert "; " + MAX_AGE == "; Max-Age=";
    Reassociated("; ", MAX_AGE, digits);
  }

  lemma Reassociated(a: string, b: string, c: string)
    ensures a + b + c == a + (b + c)
  {
  }

  // Three flags in turn.
  method AppendFlags(pair: string, f: string, g: string, h: string) returns (out: string)
    requires ';' !in pair && ';' !in f && ';' !in g && ';' !in h
    ensures Split(out) == [pair] + [" " + f] + [" " + g] + [" " + h]
    ensures out == pair + (("; " + f) + ("; " + g) + ("; " + h))
  {
    SplitWhole(pair);
    hide *;
    out := AppendFlag(pair, f);
    out := AppendFlag(out, g);
    out := AppendFlag(out, h);
    Reassociated(pair, "; " + f, "; " + g);
    Reassociated(pair, ("; " + f) + ("; " + g), "; " + h);
  }

  // The flags in the order both printers append them.
  method FormatCookie(pair: string, age: Option<nat>, secure: bool) returns (out: string)
    requires ';' !in pair
    ensures Split(out) == Segments(pair, age, secure)
    ensures IsHeader(out, pair, age, secure)
  {
    FixedTexts();
    out := AppendFlags(pair, PATH, HTTP_ONLY, SAME_SITE);
    hide Split, Decimal, IsDecimal;
    ghost var digits := "";
    if age.Some? {
      digits := Decimal(age.value);
      DecimalReadsBack(age.value);
      AgeText(digits);
      out := AppendFlag(out, MAX_AGE + Decimal(age.value));
    }
    if secure {
      out := AppendFlag(out, SECURE);
    }
    assert out == HeaderText(pair, age, secure, digits);
  }

  lemma NamePair(value: string)
    ensures NAME + "=" + value == "minioj_sid=" + value
  {
    assert NAME + "=" == "minioj_sid=";
  }

  method FormatSessionCookie(sessionId: string, ttl: int, secure: bool) returns (out: string)
    requires ';' !in sessionId
    ensures Split(out) == Segments(NAME + "=" + sessionId, if ttl > 0 then Some(ttl) else None, secure)
    ensures IsHeader(out, "minioj_sid=" + sessionId, if ttl > 0 then Some(ttl) else None, secure)
  {
    NamePair(sessionId);
    out := FormatCookie(NAME + "=" + sessionId, if ttl > 0 then Some(ttl) else None, secure);
  }

  method FormatClearSessionCookie(secure: bool) returns (out: string)
    ensures Split(out) == Segments(NAME + "=", Some(0), secure)
    ensures IsHeader(out, "minioj_sid=", Some(0), secure)
  {
    assert NAME + "=" == "minioj_sid=";
    out := FormatCookie(NAME + "=", Some(0), secure);
  }

  // ---- Round trip ----

  // The session id in a request's Cookie header, if there is a header and its value has the shape.
  ghost function SessionIdOf(header: Option<string>): Option<string> {
    match header
    case None => None
    case Some(cookies) =>
      var value := CookieValue(cookies, NAME);
      if value.Some? && IsShape(value.value) then value else None
  }

  method ParseSessionId(header: Option<string>) returns (id: Option<string>)
    ensures id == SessionIdOf(header)
  {
    if header == None {
      return None;
    }
    var value := ReadCookieValue(header.value, NAME);
    if value == None {
      return None;
    }
    var ok := IsSessionIdShape(value.value);
    return if ok then value else None;
  }

  // A cookie-string as section 4.2.1 of RFC 6265 writes it: pairs joined by "; ".
  function Join(pairs: seq<string>): string {
    if pairs == [] then ""
    else if |pairs| == 1 then pairs[0]
    else pairs[0] + "; " + Join(pairs[1..])
  }

  /** From a joined cookie-string the reader gets the value of the first pair with the name. */
  lemma {:induction false} JoinedValue(pairs: seq<string>, name: string)
    requires pairs != [] && forall p | p in pairs :: ';' !in p
    ensures CookieValue(Join(pairs), name) == FirstMatch(pairs, name)
    decreases |pairs|
  {
    var p, rest := pairs[0], pairs[1..];
    assert p in pairs;
    if rest == [] {
      IndexOfIs(p, ';', |p|);
      assert p[..|p|] == p;
    } else {
      JoinedValue(rest, name);
      var tail := Join(rest);
      assert Join(pairs) == p + ";" + (" " + tail);
      ValueAfter(p, " " + tail, name);
      LeadingBlank(tail, name);
    }
  }

  lemma ValueAfter(p: string, s: string, name: string)
    requires ';' !in p
    ensures CookieValue(p + ";" + s, name) == Or(Lookup(p, name), CookieValue(s, name))
  {
    var t := p + ";" + s;
    assert forall i | 0 <= i < |p| :: t[i] == p[i] && p[i] in p;
    IndexOfIs(t, ';', |p|);
    assert t[..|p|] == p && t[|p| + 1..] == s;
  }

  lemma SkipOneBlank(t: string, name: string)
    requires t != "" && IsBlank(t[0])
    ensures From(t, 0, name) == From(t, 1, name)
  {
    ScanStep(t, 0, 1, name);
    ScanStep(t, 1, 1, name);
  }

  lemma LeadingBlank(s: string, name: string)
    ensures CookieValue(" " + s, name) == CookieValue(s, name)
  {
    var t := " " + s;
    SkipOneBlank(t, name);
    assert t[0..] == t && t[1..] == s;
  }

  lemma PairValue(value: string)
    ensures Lookup(NAME + "=" + value, NAME) == Some(value)
  {
    var pair := NAME + "=" + value;
    assert forall i | 0 <= i < |NAME| :: pair[i] == NAME[i];
    IndexOfIs(pair, '=', |NAME|);
    assert pair[..|NAME|] == NAME && pair[|NAME| + 1..] == value;
  }

  lemma {:induction false} FirstMatchAt(pairs: seq<string>, k: nat, name: string)
    requires k < |pairs| && Lookup(pairs[k], name).Some?
    requires forall i | 0 <= i < k :: Lookup(pairs[i], name) == None
    ensures FirstMatch(pairs, name) == Lookup(pairs[k], name)
  {
    if k > 0 {
      FirstMatchAt(pairs[1..], k - 1, name);
    }
  }

  // The client sends the printed pair as the first of that name, at position k among others.
  ghost predicate SentBack(pairs: seq<string>, k: nat, setCookie: string) {
    && k < |pairs| && pairs[k] == Split(setCookie)[0]
    && (forall p | p in pairs :: ';' !in p)
    && forall i | 0 <= i < k :: Lookup(pairs[i], NAME) == None
  }

  /** A cookie printed for a session id comes back as that id from any cookie-string that carries its pair
      before any other pair of that name. */
  lemma CookieRoundTrip(sessionId: string, setCookie: string, ttl: int, secure: bool, pairs: seq<string>, k: nat)
    requires IsShape(sessionId)
    requires Split(setCookie) == Segments(NAME + "=" + sessionId, if ttl > 0 then Some(ttl) else None, secure)
    requires SentBack(pairs, k, setCookie)
    ensures SessionIdOf(Some(Join(pairs))) == Some(sessionId)
  {
    PairValue(sessionId);
    FirstMatchAt(pairs, k, NAME);
    JoinedValue(pairs, NAME);
  }

  ghost predicate FirstIs(pairs: seq<string>, id: string) {
    exists k :: 0 <= k < |pairs| && Lookup(pairs[k], NAME) == Some(id)
                && forall i | 0 <= i < k :: Lookup(pairs[i], NAME) == None
  }

  /** A cookie-string carries a session exactly when its first pair of that name, compared without case, has
      an id for value. */
  lemma SessionIdIff(pairs: seq<string>, id: string)
    requires pairs != [] && forall p | p in pairs :: ';' !in p
    ensures SessionIdOf(None) == None
    ensures SessionIdOf(Some(Join(pairs))) == Some(id)
       <==> IsShape(id) && FirstIs(pairs, id)
  {
    JoinedValue(pairs, NAME);
    FirstMatchPosition(pairs, NAME);
  }

  lemma {:induction false} FirstMatchPosition(pairs: seq<string>, name: string)
    ensures var r := FirstMatch(pairs, name);
            if r == None then forall i | 0 <= i < |pairs| :: Lookup(pairs[i], name) == None
            else exists k :: 0 <= k < |pairs| && Lookup(pairs[k], name) == r
                             && forall i | 0 <= i < k :: Lookup(pairs[i], name) == None
  {
    hide Lookup;
    if pairs != [] && Lookup(pairs[0], name) == None {
      var rest := pairs[1..];
      FirstMatchPosition(rest, name);
      if FirstMatch(rest, name) != None {
        var k :| 0 <= k < |rest| && Lookup(rest[k], name) == FirstMatch(rest, name)
                 && forall i | 0 <= i < k :: Lookup(rest[i], name) == None;
        assert pairs[k + 1] == rest[k];
        assert forall i | 0 < i < k + 1 :: pairs[i] == rest[i - 1];
      } else {
        assert forall i | 0 < i < |pairs| :: pairs[i] == rest[i - 1];
      }
    } else if pairs != [] {
      assert Lookup(pairs[0], name) == FirstMatch(pairs, name);
    }
  }

  /** The clearing cookie's pair is no session. */
  lemma ClearedCookieIsNoSession(setCookie: string, secure: bool, pairs: seq<string>, k: nat)
    requires Split(setCookie) == Segments(NAME + "=", Some(0), secure)
    requires SentBack(pairs, k, setCookie)
    ensures SessionIdOf(Some(Join(pairs))) == None
  {
    PairValue("");
    assert NAME + "=" + "" == NAME + "=";
    FirstMatchAt(pairs, k, NAME);
    JoinedValue(pairs, NAME);
  }
}
