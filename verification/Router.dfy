/**
 * Canonical object keys and physical file names. A key prints as the byte length of its namespace,
 * a colon, the namespace and the object key; lengths count UTF-8 bytes. File names carry the digest
 * of the key, the generation, the layout and, for a stripe, its index.
 */
module Router {
  import opened Types
  import Decimal
  import Striping

  datatype ObjectKey = ObjectKey(namespace: string, objectKey: string)

  const USIZE_MAX: nat := 0xFFFF_FFFF_FFFF_FFFF

  /** Bytes of a character in UTF-8. */
  function Utf8Len(c: char): (n: nat)
    ensures 1 <= n <= 4
  {
    if c as int < 0x80 then 1 else if c as int < 0x800 then 2 else if c as int < 0x10000 then 3 else 4
  }

  function ByteLen(s: string): nat {
    if s == [] then 0 else Utf8Len(s[0]) + ByteLen(s[1..])
  }

  /** How many characters make up the first `n` bytes, if a character ends there. */
  function CharBoundary(s: string, n: nat): (at: Option<nat>)
    ensures at.Some? ==> at.value <= |s|
  {
    if n == 0 then Some(0)
    else if s == [] || n < Utf8Len(s[0]) then None
    else
      match CharBoundary(s[1..], n - Utf8Len(s[0]))
      case None => None
      case Some(k) => Some(k + 1)
  }

  lemma {:induction false} BoundaryIff(s: string, n: nat, k: nat)
    requires k <= |s|
    ensures CharBoundary(s, n) == Some(k) <==> ByteLen(s[..k]) == n
  {
    if k > 0 && n > 0 {
      assert s[..k][1..] == s[1..][..k - 1];
      if n >= Utf8Len(s[0]) {
        BoundaryIff(s[1..], n - Utf8Len(s[0]), k - 1);
      }
    }
  }

  // ---------------------------------------------------------------------------------------------
  // The lengths are those of UTF-8

  /** Six bits in a continuation byte. */
  function SixBits(x: nat): byte {
    (0x80 + x % 64) as byte
  }

  /** The UTF-8 encoding of a character. */
  function Encode(c: char): (bytes: Bytes) {
    var x := c as int;
    if x < 0x80 then [x as byte]
    else if x < 0x800 then [(0xC0 + x / 64) as byte, SixBits(x)]
    else if x < 0x10000 then [(0xE0 + x / 64 / 64) as byte, SixBits(x / 64), SixBits(x)]
    else [(0xF0 + x / 64 / 64 / 64) as byte, SixBits(x / 64 / 64), SixBits(x / 64), SixBits(x)]
  }

  function EncodeAll(s: string): Bytes {
    if s == [] then [] else Encode(s[0]) + EncodeAll(s[1..])
  }

  predicate Continuation(b: byte) {
    0x80 <= b < 0xC0
  }

  /** Only the first byte of a character is not a continuation byte. */
  lemma EncodeShape(c: char)
    ensures |Encode(c)| == Utf8Len(c) && !Continuation(Encode(c)[0])
    ensures forall k :: 0 < k < |Encode(c)| ==> Continuation(Encode(c)[k])
  {
  }

  /** The bits of the bytes, put together: the inverse of `Encode`. */
  function Decode(bytes: Bytes): int
    requires 1 <= |bytes| <= 4
  {
    var lead := bytes[0] as int;
    if |bytes| == 1 then lead
    else if |bytes| == 2 then Shift(lead - 0xC0, bytes[1])
    else if |bytes| == 3 then Shift(Shift(lead - 0xE0, bytes[1]), bytes[2])
    else Shift(Shift(Shift(lead - 0xF0, bytes[1]), bytes[2]), bytes[3])
  }

  function Shift(high: int, b: byte): int {
    high * 64 + (b as int - 0x80)
  }

  lemma ShiftBack(x: nat)
    ensures Shift(x / 64, SixBits(x)) == x
  {
  }

  lemma EncodeDecodes(c: char)
    ensures Decode(Encode(c)) == c as int
  {
    var x := c as int;
    ShiftBack(x);
    ShiftBack(x / 64);
    ShiftBack(x / 64 / 64);
  }

  lemma {:induction false} ByteLenIsEncoded(s: string)
    ensures ByteLen(s) == |EncodeAll(s)|
  {
    if s != [] {
      EncodeShape(s[0]);
      ByteLenIsEncoded(s[1..]);
    }
  }

  /** A character ends after `n` bytes exactly when the text does, or the next byte starts a character. */
  lemma {:induction false} BoundaryIsUtf8(s: string, n: nat)
    ensures CharBoundary(s, n).Some? <==>
      n <= |EncodeAll(s)| && (n == |EncodeAll(s)| || !Continuation(EncodeAll(s)[n]))
  {
    if s != [] {
      var len := Utf8Len(s[0]);
      EncodeShape(s[0]);
      if n >= len {
        BoundaryIsUtf8(s[1..], n - len);
      }
    }
  }

  // ---------------------------------------------------------------------------------------------
  // Printing and parsing

  function Print(key: ObjectKey): string {
    Decimal.Print(ByteLen(key.namespace)) + (":" + (key.namespace + key.objectKey))
  }

  /** Position of the first colon. */
  function FirstColon(s: string): (at: Option<nat>)
    ensures at.Some? ==> at.value < |s| && s[at.value] == ':' && ':' !in s[..at.value]
    ensures at.None? ==> ':' !in s
  {
    if s == [] then None
    else if s[0] == ':' then Some(0)
    else
      assert s == [s[0]] + s[1..];
      match FirstColon(s[1..])
      case None => None
      case Some(k) =>
        assert s[..k + 1] == [s[0]] + s[1..][..k];
        Some(k + 1)
  }

  /** An unsigned number: an optional plus sign, then at least one digit, no larger than a machine word. */
  function ParseLength(s: string): Option<nat> {
    var digits := if s != [] && s[0] == '+' then s[1..] else s;
    if digits == [] || !Decimal.AllDigits(digits) || Decimal.Value(digits) > USIZE_MAX then None
    else Some(Decimal.Value(digits))
  }

  datatype Parsed = Parsed(key: ObjectKey) | NoColon | BadLength | BadBoundary

  function Parse(value: string): Parsed {
    match FirstColon(value)
    case None => NoColon
    case Some(colon) =>
      var rest := value[colon + 1..];
      match ParseLength(value[..colon])
      case None => BadLength
      case Some(n) =>
        match CharBoundary(rest, n)
        case None => BadBoundary
        case Some(k) => Parsed(ObjectKey(rest[..k], rest[k..]))
  }

  lemma {:induction false} ColonAfter(prefix: string, rest: string)
    requires ':' !in prefix
    ensures FirstColon(prefix + ":" + rest) == Some(|prefix|)
  {
    var s := prefix + ":" + rest;
    if prefix != [] {
      assert s[1..] == prefix[1..] + ":" + rest;
      ColonAfter(prefix[1..], rest);
    }
  }

  lemma PrintedLength(n: nat)
    requires n <= USIZE_MAX
    ensures ParseLength(Decimal.Print(n)) == Some(n) && ':' !in Decimal.Print(n)
  {
    Decimal.PrintValue(n);
  }

  /** Parsing a printed key gives the key back, whatever its characters. */
  lemma RoundTrip(key: ObjectKey)
    requires ByteLen(key.namespace) <= USIZE_MAX
    ensures Parse(Print(key)) == Parsed(key)
  {
    var n := ByteLen(key.namespace);
    var prefix, rest := Decimal.Print(n), key.namespace + key.objectKey;
    PrintedLength(n);
    assert Print(key) == prefix + ":" + rest;
    ColonAfter(prefix, rest);
    assert Print(key)[..|prefix|] == prefix && Print(key)[|prefix| + 1..] == rest;
    assert rest[..|key.namespace|] == key.namespace && rest[|key.namespace|..] == key.objectKey;
    BoundaryIff(rest, n, |key.namespace|);
  }

  lemma PrintInjective(a: ObjectKey, b: ObjectKey)
    requires ByteLen(a.namespace) <= USIZE_MAX && ByteLen(b.namespace) <= USIZE_MAX && Print(a) == Print(b)
    ensures a == b
  {
    RoundTrip(a);
    RoundTrip(b);
  }

  /** The text is an optional plus sign and digits that stand for `n`, and `n` fits a machine word. */
  ghost predicate Reads(s: string, digits: string, n: nat) {
    && (s == digits || s == "+" + digits)
    && digits != [] && Decimal.AllDigits(digits) && Decimal.Value(digits) == n <= USIZE_MAX
  }

  lemma LengthIff(s: string, n: nat)
    ensures ParseLength(s) == Some(n) <==> exists digits :: Reads(s, digits, n)
  {
    if ParseLength(s) == Some(n) {
      var digits := if s[0] == '+' then s[1..] else s;
      assert s[0] == '+' ==> s == "+" + s[1..];
      assert Reads(s, digits, n);
    }
    if digits :| Reads(s, digits, n) {
      assert s == "+" + digits ==> s[1..] == digits;
    }
  }

  /**
   * Parsing answers for every text. Without a colon there is no key. What stands before the first
   * colon must be a number that fits; then the rest is cut after that many bytes, if a character ends
   * there.
   */
  lemma ParseAnswers(prefix: string, rest: string)
    requires ':' !in prefix
    ensures Parse(prefix) == NoColon
    ensures match Parse(prefix + ":" + rest)
      case Parsed(key) =>
        && key.namespace + key.objectKey == rest
        && exists digits :: Reads(prefix, digits, ByteLen(key.namespace))
      case BadLength => forall digits, n: nat :: !Reads(prefix, digits, n)
      case BadBoundary => exists digits, n: nat ::
        Reads(prefix, digits, n) && forall k :: 0 <= k <= |rest| ==> ByteLen(rest[..k]) != n
      case NoColon => false
  {
    ParseAfterColon(prefix, rest);
    var length := ParseLength(prefix);
    if length.Some? {
      LengthIff(prefix, length.value);
      BoundaryAnswers(rest, length.value);
    } else {
      forall digits, n: nat
        ensures !Reads(prefix, digits, n)
      {
        LengthIff(prefix, n);
      }
    }
  }

  lemma ParseAfterColon(prefix: string, rest: string)
    requires ':' !in prefix
    ensures Parse(prefix + ":" + rest) ==
      match ParseLength(prefix)
      case None => BadLength
      case Some(n) =>
        match CharBoundary(rest, n)
        case None => BadBoundary
        case Some(k) => Parsed(ObjectKey(rest[..k], rest[k..]))
  {
    var value := prefix + ":" + rest;
    ColonAfter(prefix, rest);
    assert value[..|prefix|] == prefix && value[|prefix| + 1..] == rest;
  }

  lemma BoundaryAnswers(s: string, n: nat)
    ensures match CharBoundary(s, n)
      case Some(k) => ByteLen(s[..k]) == n && s[..k] + s[k..] == s
      case None => forall k :: 0 <= k <= |s| ==> ByteLen(s[..k]) != n
  {
    forall k | 0 <= k <= |s|
      ensures CharBoundary(s, n) == Some(k) <==> ByteLen(s[..k]) == n
    {
      BoundaryIff(s, n, k);
    }
  }

  /** No plus sign and no leading zero. */
  predicate CanonicalLength(s: string) {
    s != [] && s[0] != '+' && (s[0] == '0' ==> |s| == 1)
  }

  lemma {:induction false} CanonicalPrints(s: string)
    requires s != [] && Decimal.AllDigits(s) && (s[0] == '0' ==> |s| == 1)
    ensures Decimal.Print(Decimal.Value(s)) == s
    ensures |s| > 1 ==> Decimal.Value(s) >= 10
  {
    assert s == Front(s) + [Last(s)];
    if |s| == 1 {
      assert Front(s) == [];
    } else {
      CanonicalPrints(Front(s));
      TensAndUnits(Decimal.Value(Front(s)), Last(s) as int - '0' as int);
      assert |s| == 2 ==> Decimal.Value(Front(s)) > 0 by {
        if |s| == 2 {
          assert Front(Front(s)) == [];
        }
      }
    }
  }

  lemma TensAndUnits(tens: nat, units: nat)
    requires units < 10
    ensures (10 * tens + units) / 10 == tens && (10 * tens + units) % 10 == units
  {
  }

  lemma CanonicalIff(s: string)
    requires ParseLength(s).Some?
    ensures Decimal.Print(ParseLength(s).value) == s <==> CanonicalLength(s)
  {
    Decimal.PrintValue(ParseLength(s).value);
    if CanonicalLength(s) {
      CanonicalPrints(s);
    } else if s[0] == '0' {
      NoLeadingZero(ParseLength(s).value);
    }
  }

  lemma {:induction false} NoLeadingZero(n: nat)
    ensures Decimal.Print(n)[0] == '0' ==> |Decimal.Print(n)| == 1
  {
    if n >= 10 {
      NoLeadingZero(n / 10);
      NotZero(n / 10);
    }
  }

  lemma {:induction false} NotZero(n: nat)
    ensures n > 0 ==> Decimal.Print(n)[0] != '0'
  {
    if n >= 10 {
      NotZero(n / 10);
    }
  }

  /** A string that parses is the printed form of its key exactly when its length part is canonical. */
  lemma ReprintsIff(value: string)
    requires Parse(value).Parsed?
    ensures Print(Parse(value).key) == value <==> CanonicalLength(value[..FirstColon(value).value])
  {
    var colon := FirstColon(value).value;
    var len, rest := value[..colon], value[colon + 1..];
    var n := ParseLength(len).value;
    var k := CharBoundary(rest, n).value;
    BoundaryIff(rest, n, k);
    CanonicalIff(len);
    assert rest[..k] + rest[k..] == rest;
    SplitAt(value, colon);
    CancelTail(Decimal.Print(n), len, ":" + rest);
  }

  lemma SplitAt(value: string, colon: nat)
    requires colon < |value| && value[colon] == ':'
    ensures value == value[..colon] + (":" + value[colon + 1..])
  {
  }

  lemma CancelTail(x: string, y: string, z: string)
    ensures x + z == y + z <==> x == y
  {
    if x + z == y + z {
      assert |x| == |y|;
      assert x == (x + z)[..|x|] == y;
    }
  }

  lemma CancelHead(z: string, x: string, y: string)
    requires z + x == z + y
    ensures x == y
  {
    assert x == (z + x)[|z|..] == (z + y)[|z|..] == y;
  }

  // ---------------------------------------------------------------------------------------------
  // Physical paths

  predicate Allowed(c: char) {
    'a' <= c <= 'z' || 'A' <= c <= 'Z' || '0' <= c <= '9' || c == '.' || c == '-' || c == '_'
  }

  /** Characters that are not allowed become underscores. */
  function Sanitized(s: string): (r: string)
    ensures |r| == |s|
  {
    seq(|s|, i requires 0 <= i < |s| => if Allowed(s[i]) then s[i] else '_')
  }

  function PathComponent(s: string): string {
    var out := Sanitized(s);
    if out == "" || out == "." || out == ".." then "_" else out
  }

  /** The component names a directory of its own: never empty, never a dot directory, never a separator. */
  lemma ComponentIsSafe(s: string)
    ensures var c := PathComponent(s);
      c != "" && c != "." && c != ".." && forall i :: 0 <= i < |c| ==> Allowed(c[i])
  {
  }

  method BuildComponent(value: string) returns (out: string)
    ensures out == PathComponent(value)
  {
    out := "";
    for i := 0 to |value|
      invariant out == Sanitized(value)[..i]
    {
      out := out + if Allowed(value[i]) then [value[i]] else "_";
    }
    if out == "" || out == "." || out == ".." {
      out := "_";
    }
  }

  /** Thirty-two characters, none of them a dot. */
  predicate IsDigest(d: string) {
    |d| == 32 && '.' !in d
  }

  function Suffix(chunk: Option<nat>): string {
    match chunk
    case None => ".bin"
    case Some(i) => ".chunk" + (Decimal.Print(i) + ".bin")
  }

  function LayoutTail(layout: nat, chunk: Option<nat>): string {
    ".l" + (Decimal.Print(layout) + Suffix(chunk))
  }

  function Tail(generation: nat, layout: nat, chunk: Option<nat>): string {
    ".g" + (Decimal.Print(generation) + LayoutTail(layout, chunk))
  }

  function FileName(stem: string, generation: nat, layout: nat, chunk: Option<nat>): string {
    stem + Tail(generation, layout, chunk)
  }

  /** The path below a device root, as its components. */
  function VersionedPath(root: string, subdir: string, key: ObjectKey, digest: string, generation: nat, layout: nat,
                         chunk: Option<nat>): seq<string>
    requires IsDigest(digest)
  {
    [root, subdir, "data", PathComponent(key.namespace), digest[..2], digest[2..4],
     FileName(digest[4..], generation, layout, chunk)]
  }

  predicate StartsWithDot(s: string) {
    s != [] && s[0] == '.'
  }

  /** A run of digits ends where the first other character is. */
  lemma DigitsEnd(a: string, x: string, b: string, y: string)
    requires Decimal.AllDigits(a) && Decimal.AllDigits(b) && StartsWithDot(x) && StartsWithDot(y) && a + x == b + y
    ensures a == b && x == y
  {
    DigitsNotShorter(a, x, b, y);
    DigitsNotShorter(b, y, a, x);
    assert a == (a + x)[..|a|] == b && x == (a + x)[|a|..] == y;
  }

  lemma DigitsNotShorter(a: string, x: string, b: string, y: string)
    requires Decimal.AllDigits(b) && StartsWithDot(x) && a + x == b + y
    ensures |b| <= |a|
  {
    assert (a + x)[|a|] == '.';
  }

  /** A number between a fixed head and a tail that starts with a dot is read back in one way. */
  lemma NumberThenDot(head: string, a: nat, x: string, b: nat, y: string)
    requires StartsWithDot(x) && StartsWithDot(y)
    requires head + (Decimal.Print(a) + x) == head + (Decimal.Print(b) + y)
    ensures a == b && x == y
  {
    CancelHead(head, Decimal.Print(a) + x, Decimal.Print(b) + y);
    Decimal.PrintValue(a);
    Decimal.PrintValue(b);
    DigitsEnd(Decimal.Print(a), x, Decimal.Print(b), y);
    Decimal.PrintInjective(a, b);
  }

  /** Whole values and stripes are told apart by the letter after the dot. */
  lemma SuffixLetter(c: Option<nat>)
    ensures StartsWithDot(Suffix(c)) && |Suffix(c)| > 1 && Suffix(c)[1] == if c.None? then 'b' else 'c'
  {
  }

  lemma SuffixInjective(a: Option<nat>, b: Option<nat>)
    requires Suffix(a) == Suffix(b)
    ensures a == b
  {
    SuffixLetter(a);
    SuffixLetter(b);
    if a.Some? && b.Some? {
      NumberThenDot(".chunk", a.value, ".bin", b.value, ".bin");
    }
  }

  /** What follows the stem determines generation, layout and chunk. */
  lemma TailInjective(g1: nat, l1: nat, c1: Option<nat>, g2: nat, l2: nat, c2: Option<nat>)
    requires Tail(g1, l1, c1) == Tail(g2, l2, c2)
    ensures g1 == g2 && l1 == l2 && c1 == c2
  {
    NumberThenDot(".g", g1, LayoutTail(l1, c1), g2, LayoutTail(l2, c2));
    SuffixLetter(c1);
    SuffixLetter(c2);
    NumberThenDot(".l", l1, Suffix(c1), l2, Suffix(c2));
    SuffixInjective(c1, c2);
  }

  /**
   * Versioned paths differ whenever key, generation, layout or chunk index differ, on whatever
   * devices, provided the digests of the two keys do not collide.
   */
  lemma VersionedPathInjective(root1: string, root2: string, subdir: string, k1: ObjectKey, k2: ObjectKey,
                               d1: string, d2: string, g1: nat, g2: nat, l1: nat, l2: nat,
                               c1: Option<nat>, c2: Option<nat>)
    requires IsDigest(d1) && IsDigest(d2) && (d1 == d2 ==> k1 == k2)
    requires VersionedPath(root1, subdir, k1, d1, g1, l1, c1) == VersionedPath(root2, subdir, k2, d2, g2, l2, c2)
    ensures k1 == k2 && g1 == g2 && l1 == l2 && c1 == c2
  {
    var p1 := VersionedPath(root1, subdir, k1, d1, g1, l1, c1);
    var p2 := VersionedPath(root2, subdir, k2, d2, g2, l2, c2);
    assert p1[4] == p2[4] && p1[5] == p2[5] && p1[6] == p2[6];
    SameFileName(d1[4..], g1, l1, c1, d2[4..], g2, l2, c2);
    assert d1 == d1[..2] + d1[2..4] + d1[4..] && d2 == d2[..2] + d2[2..4] + d2[4..];
  }

  lemma SameFileName(s1: string, g1: nat, l1: nat, c1: Option<nat>, s2: string, g2: nat, l2: nat, c2: Option<nat>)
    requires |s1| == |s2| && FileName(s1, g1, l1, c1) == FileName(s2, g2, l2, c2)
    ensures s1 == s2 && g1 == g2 && l1 == l2 && c1 == c2
  {
    var t1, t2 := Tail(g1, l1, c1), Tail(g2, l2, c2);
    assert s1 == (s1 + t1)[..|s1|] == (s2 + t2)[..|s1|] == s2;
    CancelHead(s1, t1, t2);
    TailInjective(g1, l1, c1, g2, l2, c2);
  }

  // ---------------------------------------------------------------------------------------------
  // Devices

  /** Stripes go round the devices, starting from the key's own. */
  function ChunkDevice(home: nat, chunk: nat, devices: nat): (d: nat)
    requires devices > 0
    ensures d < devices
  {
    (home + chunk) % devices
  }

  /** Stripes fewer than a full round apart are on different devices; a full round apart, on the same one. */
  lemma StripesSpread(home: nat, i: nat, j: nat, devices: nat)
    requires devices > 0 && i < j <= i + devices
    ensures ChunkDevice(home, i, devices) == ChunkDevice(home, j, devices) <==> j == i + devices
  {
    var a, b := home + i, home + j;
    var p, r, delta := a / devices, a % devices, j - i;
    assert a == p * devices + r;
    assert (p + 1) * devices == p * devices + devices;
    if r + delta < devices {
      Striping.QuotientUnique(b, devices, p);
    } else {
      Striping.QuotientUnique(b, devices, p + 1);
    }
    assert b == (b / devices) * devices + b % devices;
  }
}
