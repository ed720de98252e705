/**
 The password hash's text format: bcrypt's base64, the salt string and the re-parsing of a stored hash. Bytes are
 split with division and remainder where the source shifts and masks. The cipher is any deterministic function of
 rounds, salt, key and output position.
 */
module Bcrypt {
  import opened Bits

  /** A C string: its characters before the terminator. */
  type CString = s: string | '\0' !in s

  const HASH_SIZE: nat := 64
  /** The marker and rounds of a salt string, its random bytes, and both together as text. */
  const SALT_TEXT: nat := 7
  const SALT_BYTES: nat := 16
  const SALT_PREFIX: nat := 29

  type Digit = x: int | 0 <= x < 64

  // ---- Base64 ----

  /** The table: `.`, `/`, then A to Z, a to z and 0 to 9. */
  function Char(x: Digit): (c: char)
    ensures c != '\0'
  {
    if x < 2 then (46 + x) as char
    else if x < 28 then (65 + (x - 2)) as char
    else if x < 54 then (97 + (x - 28)) as char
    else (48 + (x - 54)) as char
  }

  /** Position in the table, or -1; `strchr` also finds the table's own terminator, so NUL has the value 64. */
  function Value(c: char): (r: int)
    ensures c != '\0' ==> -1 <= r < 64
  {
    var i := c as int;
    if i == 0 then 64
    else if 46 <= i < 48 then i - 46
    else if 65 <= i < 91 then i - 65 + 2
    else if 97 <= i < 123 then i - 97 + 28
    else if 48 <= i < 58 then i - 48 + 54
    else -1
  }

  function Encoded(src: seq<byte>): CString {
    if src == [] then []
    else if |src| == 1 then [Char(src[0] / 4), Char(src[0] % 4 * 16)]
    else if |src| == 2 then
      [Char(src[0] / 4), Char(src[0] % 4 * 16 + src[1] / 16), Char(src[1] % 16 * 4)]
    else
      Group(src[0], src[1], src[2]) + Encoded(src[3..])
  }

  function Group(a: byte, b: byte, c: byte): CString {
    [Char(a / 4), Char(a % 4 * 16 + b / 16), Char(b % 16 * 4 + c / 64), Char(c % 64)]
  }

  function EncodedLength(n: nat): nat {
    if n == 0 then 0 else if n < 3 then n + 1 else 4 + EncodedLength(n - 3)
  }

  /** `OverRead`: the source reads past the string's terminator. */
  datatype Decoding = Bytes(bytes: seq<byte>) | Invalid | OverRead

  function Prepend(bytes: seq<byte>, rest: Decoding): Decoding {
    if rest.Bytes? then Bytes(bytes + rest.bytes) else rest
  }

  /** The value read at position k, the terminator included. */
  function At(s: CString, k: nat): int
    requires k <= |s|
  {
    if k < |s| then Value(s[k]) else 64
  }

  /** As the decoder reads its third and fourth character: -1 at the terminator. */
  function Next(s: CString, k: nat): (r: int)
    ensures r < 64
  {
    if k < |s| then Value(s[k]) else -1
  }

  /** One pass of the decoder's loop: `Go` continues after four characters, the others end the decoding. */
  datatype Pass = Go(bytes: seq<byte>) | Stop(bytes: seq<byte>) | Fail | Past

  function Quad(s: CString, k: nat, need: nat): (p: Pass)
    requires k < |s| && need > 0
    ensures p.Go? ==> |p.bytes| == 3 <= need && k + 4 <= |s|
    ensures p.Stop? ==> 1 <= |p.bytes| <= 2 && |p.bytes| <= need
  {
    var c1, c2 := At(s, k), At(s, k + 1);
    if c1 < 0 || c2 < 0 then Fail
    else
      var b1: byte := c1 * 4 + c2 / 16 % 4;
      if need == 1 then Stop([b1])
      else if k + 1 == |s| then Past
      else
        var c3 := Next(s, k + 2);
        if c3 < 0 then Stop([b1])
        else
          var b2: byte := c2 % 16 * 16 + c3 / 4 % 16;
          if need == 2 then Stop([b1, b2])
          else
            var c4 := Next(s, k + 3);
            if c4 < 0 then Stop([b1, b2])
            else
              var b3: byte := c3 % 4 * 64 + c4;
              Go([b1, b2, b3])
  }

  /** The decoder's loop from position k, with room for `need` more bytes. */
  function Decoded(s: CString, k: nat, need: nat): Decoding
    decreases need
  {
    if k > |s| then OverRead
    else if k == |s| || need == 0 then Bytes([])
    else
      match Quad(s, k, need)
      case Go(bytes) => Prepend(bytes, Decoded(s, k + 4, need - 3))
      case Stop(bytes) => Bytes(bytes)
      case Fail => Invalid
      case Past => OverRead
  }

  /** The lookup finds a character exactly where the table has it. */
  lemma ValueIsPosition(c: char, x: Digit)
    ensures Value(c) == x <==> Char(x) == c
  {
  }

  lemma ValueOfChar(x: Digit)
    ensures Value(Char(x)) == x
  {
    ValueIsPosition(Char(x), x);
  }

  lemma {:induction false} LengthOfEncoded(src: seq<byte>)
    ensures |Encoded(src)| == EncodedLength(|src|)
    decreases |src|
  {
    if |src| < 3 {
    } else {
      LengthOfEncoded(src[3..]);
    }
  }

  /** Splitting three bytes into four digits loses nothing. */
  lemma GroupValues(a: byte, b: byte, c: byte)
    ensures var g := Group(a, b, c);
            && Value(g[0]) == a / 4 && Value(g[1]) == a % 4 * 16 + b / 16
            && Value(g[2]) == b % 16 * 4 + c / 64 && Value(g[3]) == c % 64
  {
    ValueOfChar(a / 4);
    ValueOfChar(a % 4 * 16 + b / 16);
    ValueOfChar(b % 16 * 4 + c / 64);
    ValueOfChar(c % 64);
  }

  lemma JoinDigits(a: byte, b: byte, c: byte)
    ensures a / 4 * 4 + (a % 4 * 16 + b / 16) / 16 % 4 == a
    ensures (a % 4 * 16 + b / 16) % 16 * 16 + (b % 16 * 4 + c / 64) / 4 % 16 == b
    ensures (b % 16 * 4 + c / 64) % 4 * 64 + c % 64 == c
  {
    DivModUnique(a % 4 * 16 + b / 16, 16, a % 4, b / 16);
    DivModUnique(b % 16 * 4 + c / 64, 4, b % 16, c / 64);
  }

  /** Characters from position k read as the digits of the bytes a, b and c. */
  predicate ReadsAs(s: CString, k: nat, a: byte, b: byte, c: byte, n: nat)
    requires k + n <= |s|
  {
    && (n > 0 ==> Value(s[k]) == a / 4)
    && (n > 1 ==> Value(s[k + 1]) == a % 4 * 16 + b / 16)
    && (n > 2 ==> Value(s[k + 2]) == b % 16 * 4 + c / 64)
    && (n > 3 ==> Value(s[k + 3]) == c % 64)
  }

  lemma DecodeOne(s: CString, k: nat, a: byte)
    requires k + 2 <= |s| && ReadsAs(s, k, a, 0, 0, 2)
    ensures Decoded(s, k, 1) == Bytes([a])
  {
    JoinDigits(a, 0, 0);
  }

  lemma DecodeTwo(s: CString, k: nat, a: byte, b: byte)
    requires k + 3 <= |s| && ReadsAs(s, k, a, b, 0, 3)
    ensures Decoded(s, k, 2) == Bytes([a, b])
  {
    JoinDigits(a, b, 0);
  }

  lemma DecodeThree(s: CString, k: nat, need: nat, a: byte, b: byte, c: byte)
    requires k + 4 <= |s| && ReadsAs(s, k, a, b, c, 4) && need >= 3
    ensures Decoded(s, k, need) == Prepend([a, b, c], Decoded(s, k + 4, need - 3))
  {
    JoinDigits(a, b, c);
  }

  /** The encoding of `src` stands in s at position k. */
  predicate Holds(s: CString, k: nat, src: seq<byte>) {
    k + |Encoded(src)| <= |s| && s[k..k + |Encoded(src)|] == Encoded(src)
  }

  lemma CharAt(s: CString, k: nat, e: string, i: nat)
    requires k + |e| <= |s| && s[k..k + |e|] == e && i < |e|
    ensures s[k + i] == e[i]
  {
    assert s[k..k + |e|][i] == s[k + i];
  }

  lemma OneReads(s: CString, k: nat, src: seq<byte>)
    requires |src| == 1 && Holds(s, k, src)
    ensures k + 2 <= |s| && ReadsAs(s, k, src[0], 0, 0, 2)
  {
    var e := Encoded(src);
    CharAt(s, k, e, 0);
    CharAt(s, k, e, 1);
    GroupValues(src[0], 0, 0);
  }

  lemma TwoRead(s: CString, k: nat, src: seq<byte>)
    requires |src| == 2 && Holds(s, k, src)
    ensures k + 3 <= |s| && ReadsAs(s, k, src[0], src[1], 0, 3)
  {
    var e := Encoded(src);
    CharAt(s, k, e, 0);
    CharAt(s, k, e, 1);
    CharAt(s, k, e, 2);
    GroupValues(src[0], src[1], 0);
  }

  lemma ThreeRead(s: CString, k: nat, src: seq<byte>)
    requires |src| >= 3 && Holds(s, k, src)
    ensures k + 4 <= |s| && ReadsAs(s, k, src[0], src[1], src[2], 4) && Holds(s, k + 4, src[3..])
  {
    var g, t := Group(src[0], src[1], src[2]), Encoded(src[3..]);
    assert s[k..k + 4] == s[k..k + 4 + |t|][..4];
    assert s[k + 4..k + 4 + |t|] == s[k..k + 4 + |t|][4..];
    CharAt(s, k, g, 0);
    CharAt(s, k, g, 1);
    CharAt(s, k, g, 2);
    CharAt(s, k, g, 3);
    GroupValues(src[0], src[1], src[2]);
  }

  lemma ShortTail(s: CString, k: nat, src: seq<byte>)
    requires |src| <= 2 && Holds(s, k, src)
    ensures Decoded(s, k, |src|) == Bytes(src)
  {
    if |src| == 1 {
      OneReads(s, k, src);
      DecodeOne(s, k, src[0]);
    } else if |src| == 2 {
      TwoRead(s, k, src);
      DecodeTwo(s, k, src[0], src[1]);
    }
  }

  lemma FullGroup(s: CString, k: nat, src: seq<byte>)
    requires |src| >= 3 && Holds(s, k, src) && Decoded(s, k + 4, |src| - 3) == Bytes(src[3..])
    ensures Decoded(s, k, |src|) == Bytes(src)
  {
    ThreeRead(s, k, src);
    DecodeThree(s, k, |src|, src[0], src[1], src[2]);
    assert src == [src[0], src[1], src[2]] + src[3..];
  }

  /** Decoding undoes encoding for every byte string, wherever it starts and whatever follows it. */
  lemma {:induction false} DecodeUndoesEncode(s: CString, k: nat, src: seq<byte>)
    requires Holds(s, k, src)
    ensures Decoded(s, k, |src|) == Bytes(src)
    decreases |src|
  {
    if |src| <= 2 {
      ShortTail(s, k, src);
    } else {
      ThreeRead(s, k, src);
      DecodeUndoesEncode(s, k + 4, src[3..]);
      FullGroup(s, k, src);
    }
  }

  // ---- The loops ----

  method EncodeBase64(src: seq<byte>) returns (text: string)
    ensures text == Encoded(src)
  {
    text := [];
    var i := 0;
    while i < |src|
      invariant i <= |src|
      invariant text + Encoded(src[i..]) == Encoded(src)
    {
      ghost var before, rest := text, src[i..];
      var a, b, c: byte := src[i], 0, 0;
      i := i + 1;
      text := text + [Char(a / 4)];
      if i >= |src| {
        text := text + [Char(a % 4 * 16)];
        assert text == before + Encoded(rest);
        break;
      }
      b := src[i];
      i := i + 1;
      text := text + [Char(a % 4 * 16 + b / 16)];
      if i >= |src| {
        text := text + [Char(b % 16 * 4)];
        assert text == before + Encoded(rest);
        break;
      }
      c := src[i];
      i := i + 1;
      text := text + [Char(b % 16 * 4 + c / 64)] + [Char(c % 64)];
      assert src[i..] == rest[3..];
      FourMore(before, a, b, c, Encoded(rest[3..]));
    }
  }

  lemma FourMore(before: string, a: byte, b: byte, c: byte, rest: string)
    ensures before + [Char(a / 4)] + [Char(a % 4 * 16 + b / 16)] + [Char(b % 16 * 4 + c / 64)] + [Char(c % 64)] + rest
            == before + (Group(a, b, c) + rest)
  {
  }

  /** Fills at most `room` bytes; `OverRead` stands for the read past the terminator. */
  method DecodeBase64(s: CString, from: nat, room: nat) returns (r: Decoding)
    ensures r == Decoded(s, from, room)
  {
    if from > |s| {
      return OverRead;
    }
    var dst, si := [], from;
    ghost var all := Decoded(s, from, room);
    PrependNothing(all);
    while si < |s| && |dst| < room
      invariant |dst| <= room && 0 <= si <= |s|
      invariant Prepend(dst, Decoded(s, si, room - |dst|)) == all
      decreases room - |dst|
    {
      var p, next := DecodePass(s, si, room - |dst|);
      PassStep(dst, s, si, room - |dst|);
      match p
      case Go(bytes) => dst, si := dst + bytes, next;
      case Stop(bytes) => return Bytes(dst + bytes);
      case Fail => return Invalid;
      case Past => return OverRead;
    }
    return Bytes(dst);
  }

  /** One pass, reading character by character; `si` is where the source's index ends up. */
  method DecodePass(s: CString, k: nat, need: nat) returns (p: Pass, si: nat)
    requires k < |s| && need > 0
    ensures p == Quad(s, k, need) && (p.Go? ==> si == k + 4)
  {
    si := k;
    var dst: seq<byte> := [];
    var c1 := At(s, si);
    si := si + 1;
    if c1 < 0 {
      return Fail, si;
    }
    var c2 := At(s, si);
    si := si + 1;
    if c2 < 0 {
      return Fail, si;
    }
    dst := dst + [c1 * 4 + c2 / 16 % 4];
    if |dst| >= need {
      return Stop(dst), si;
    }
    if si > |s| {
      return Past, si;
    }
    var c3 := -1;
    if si < |s| {
      c3 := Value(s[si]);
      si := si + 1;
    }
    if c3 < 0 {
      return Stop(dst), si;
    }
    dst := dst + [c2 % 16 * 16 + c3 / 4 % 16];
    if |dst| >= need {
      return Stop(dst), si;
    }
    var c4 := -1;
    if si < |s| {
      c4 := Value(s[si]);
      si := si + 1;
    }
    if c4 < 0 {
      return Stop(dst), si;
    }
    dst := dst + [c3 % 4 * 64 + c4];
    return Go(dst), si;
  }

  /** What a pass contributes to the bytes decoded before it. */
  lemma PassStep(before: seq<byte>, s: CString, k: nat, need: nat)
    requires k < |s| && need > 0
    ensures var p := Quad(s, k, need);
            Prepend(before, Decoded(s, k, need)) ==
            match p
            case Go(bytes) => Prepend(before + bytes, Decoded(s, k + 4, need - 3))
            case Stop(bytes) => Bytes(before + bytes)
            case Fail => Invalid
            case Past => OverRead
  {
    var p := Quad(s, k, need);
    if p.Go? {
      PrependTwice(before, p.bytes, Decoded(s, k + 4, need - 3));
    }
  }

  lemma PrependNothing(d: Decoding)
    ensures Prepend([], d) == d
  {
  }

  lemma PrependTwice(x: seq<byte>, y: seq<byte>, d: Decoding)
    ensures Prepend(x, Prepend(y, d)) == Prepend(x + y, d)
  {
    if d.Bytes? {
      assert x + (y + d.bytes) == (x + y) + d.bytes;
    }
  }

  // ---- Salts and hashes ----

  type Cipher = (int, seq<byte>, string, nat) -> byte

  datatype Outcome = Text(text: CString) | Error | ReadsOut

  predicate IsDigit(c: char) {
    '0' <= c <= '9'
  }

  function DigitsValue(s: string, acc: int): int {
    if s == [] || !IsDigit(s[0]) then acc else DigitsValue(s[1..], acc * 10 + (s[0] as int - 48))
  }

  /** `atoi`: white space, a sign, digits up to the first other character. */
  function Atoi(s: string): int {
    if s == [] then 0
    else if s[0] == ' ' || 9 <= s[0] as int <= 13 then Atoi(s[1..])
    else if s[0] == '-' then -DigitsValue(s[1..], 0)
    else if s[0] == '+' then DigitsValue(s[1..], 0)
    else DigitsValue(s, 0)
  }

  function Distance(x: int, y: int): nat {
    if x < y then y - x else x - y
  }

  /** The nearest number of rounds that is allowed. */
  function Clamp(logRounds: int): (r: int)
    ensures 4 <= r <= 31 && forall y | 4 <= y <= 31 :: Distance(logRounds, r) <= Distance(logRounds, y)
  {
    if logRounds < 4 then 4 else if logRounds > 31 then 31 else logRounds
  }

  function DigitChar(d: int): (c: char)
    requires 0 <= d <= 9
    ensures IsDigit(c) && c as int - 48 == d
  {
    (48 + d) as char
  }

  /** `gensalt` with the sixteen random bytes as an argument. */
  function Gensalt(logRounds: int, raw: seq<byte>): CString {
    var r := Clamp(logRounds);
    ['$', '2', 'a', '$', DigitChar(r / 10), DigitChar(r % 10), '$'] + Encoded(raw)
  }

  /** The password and its terminator, cut at 72 bytes. */
  function Key(password: CString): string {
    var k := password + ['\0'];
    if |k| > 72 then k[..72] else k
  }

  predicate Marked(salt: CString) {
    |salt| >= 4 && salt[0] == '$' && salt[1] == '2' && (salt[2] == 'a' || salt[2] == 'b') && salt[3] == '$'
  }

  function Digest(cipher: Cipher, rounds: int, raw: seq<byte>, key: string): seq<byte> {
    seq(23, i requires 0 <= i < 23 => cipher(rounds, raw, key, i))
  }

  /** `hashpw`: the first 29 bytes of the salt string, its terminator included when it is that short, then the digest. */
  function Hashed(cipher: Cipher, password: CString, salt: CString): Outcome {
    if !Marked(salt) || !(4 <= Atoi(salt[4..]) <= 31) then Error
    else
      match Decoded(salt, SALT_TEXT, SALT_BYTES)
      case OverRead => ReadsOut
      case Invalid => Error
      case Bytes(raw) =>
        if |raw| < SALT_BYTES then Error
        else if |salt| < SALT_PREFIX then Text(salt)
        else Text(salt[..SALT_PREFIX] + Encoded(Digest(cipher, Atoi(salt[4..]), raw, Key(password))))
  }

  method HashPw(cipher: Cipher, password: CString, salt: CString) returns (r: Outcome)
    ensures r == Hashed(cipher, password, salt)
  {
    if !Marked(salt) {
      return Error;
    }
    var rounds := Atoi(salt[4..]);
    if rounds < 4 || rounds > 31 {
      return Error;
    }
    var d := DecodeBase64(salt, SALT_TEXT, SALT_BYTES);
    if d.OverRead? {
      return ReadsOut;
    }
    if d.Invalid? || |d.bytes| < SALT_BYTES {
      return Error;
    }
    if |salt| < SALT_PREFIX {
      return Text(salt);
    }
    var digest := EncodeBase64(Digest(cipher, rounds, d.bytes, Key(password)));
    return Text(salt[..SALT_PREFIX] + digest);
  }

  // ---- Comparison ----

  function Xor(x: nat, y: nat): nat {
    if x == 0 && y == 0 then 0 else 2 * Xor(x / 2, y / 2) + if x % 2 != y % 2 then 1 else 0
  }

  lemma {:induction false} XorZero(x: nat, y: nat)
    ensures Xor(x, y) == 0 <==> x == y
    decreases x + y
  {
    if x == 0 && y == 0 {
    } else {
      XorZero(x / 2, y / 2);
    }
  }

  lemma {:induction false} OrNothing(x: nat, y: nat)
    ensures Or(x, y) == 0 <==> x == 0 && y == 0
    decreases x + y
  {
    if x == 0 && y == 0 {
    } else {
      OrHalves(x, y);
      OrNothing(x / 2, y / 2);
    }
  }

  /** The branch-free comparison of two strings of one length. */
  method Difference(a: string, b: string) returns (diff: nat)
    requires |a| == |b|
    ensures diff == 0 <==> a == b
  {
    diff := 0;
    var i := 0;
    while i < |a|
      invariant 0 <= i <= |a|
      invariant diff == 0 <==> a[..i] == b[..i]
    {
      OrNothing(diff, Xor(a[i] as int, b[i] as int));
      XorZero(a[i] as int, b[i] as int);
      assert a[..i + 1] == a[..i] + [a[i]] && b[..i + 1] == b[..i] + [b[i]];
      diff := Or(diff, Xor(a[i] as int, b[i] as int));
      i := i + 1;
    }
    assert a[..i] == a && b[..i] == b;
  }

  /** 0 exactly when the password hashes to the stored text, -1 exactly when the stored text does not parse. */
  method CheckPw(cipher: Cipher, password: CString, stored: CString) returns (code: int, overRead: bool)
    ensures overRead <==> Hashed(cipher, password, stored).ReadsOut?
    ensures !overRead ==> (code == 0 <==> Hashed(cipher, password, stored) == Text(stored))
    ensures !overRead ==> (code == -1 <==> Hashed(cipher, password, stored).Error?) && code in {-1, 0, 1}
  {
    var computed := HashPw(cipher, password, stored);
    if computed.ReadsOut? {
      return 0, true;
    }
    if computed.Error? {
      return -1, false;
    }
    if |stored| != |computed.text| {
      return 1, false;
    }
    var diff := Difference(stored, computed.text);
    return if diff != 0 then 1 else 0, false;
  }

  // ---- Main results ----

  /** Two decimal digits and a dollar sign after the marker: what `gensalt` writes. */
  predicate Standard(salt: CString) {
    Marked(salt) && |salt| >= SALT_PREFIX && IsDigit(salt[4]) && IsDigit(salt[5]) && salt[6] == '$'
  }

  lemma AtoiStandard(salt: CString)
    requires |salt| >= 7 && IsDigit(salt[4]) && IsDigit(salt[5]) && salt[6] == '$'
    ensures Atoi(salt[4..]) == (salt[4] as int - 48) * 10 + (salt[5] as int - 48)
  {
    var t, d := salt[4..], salt[4] as int - 48;
    assert t[0] == salt[4] && t[1..][0] == salt[5] && t[1..][1..][0] == salt[6];
    assert DigitsValue(t, 0) == DigitsValue(t[1..], d);
    assert DigitsValue(t[1..], d) == DigitsValue(t[1..][1..], d * 10 + (salt[5] as int - 48));
  }

  predicate Agree(s: CString, t: CString, n: nat) {
    n <= |s| && n <= |t| && s[..n] == t[..n]
  }

  lemma AgreeAt(s: CString, t: CString, n: nat, i: nat)
    requires Agree(s, t, n) && i < n
    ensures At(s, i) == At(t, i) && Next(s, i) == Next(t, i)
  {
    assert s[..n][i] == t[..n][i];
  }

  /** Decoding `need` bytes looks at no more than the characters that encode them. */
  lemma {:induction false} DecodeIsLocal(s: CString, t: CString, k: nat, need: nat, n: nat)
    requires Agree(s, t, n) && n == k + EncodedLength(need)
    ensures SameDecoding(s, t, k, need)
    decreases need
  {
    if need == 0 {
      NothingDecoded(s, t, k);
    } else {
      if need >= 3 {
        DecodeIsLocal(s, t, k + 4, need - 3, n);
      }
      PassIsLocal(s, t, k, need, n);
    }
  }

  lemma PassIsLocal(s: CString, t: CString, k: nat, need: nat, n: nat)
    requires need > 0 && Agree(s, t, n) && n == k + EncodedLength(need)
    requires need >= 3 ==> SameDecoding(s, t, k + 4, need - 3)
    ensures SameDecoding(s, t, k, need)
  {
    QuadIsLocal(s, t, k, need, n);
    SamePass(s, t, k, need);
  }

  predicate SameDecoding(s: CString, t: CString, k: nat, need: nat) {
    Decoded(s, k, need) == Decoded(t, k, need)
  }

  lemma NothingDecoded(s: CString, t: CString, k: nat)
    requires k <= |s| && k <= |t|
    ensures SameDecoding(s, t, k, 0)
  {
  }

  lemma SamePass(s: CString, t: CString, k: nat, need: nat)
    requires need > 0 && k < |s| && k < |t| && Quad(s, k, need) == Quad(t, k, need)
    requires need >= 3 ==> SameDecoding(s, t, k + 4, need - 3)
    ensures SameDecoding(s, t, k, need)
  {
  }

  lemma QuadIsLocal(s: CString, t: CString, k: nat, need: nat, n: nat)
    requires need > 0 && Agree(s, t, n) && n == k + EncodedLength(need)
    ensures k < |s| && k < |t| && Quad(s, k, need) == Quad(t, k, need)
  {
    AgreeAt(s, t, n, k);
    AgreeAt(s, t, n, k + 1);
    if need >= 2 {
      AgreeAt(s, t, n, k + 2);
    }
    if need >= 3 {
      AgreeAt(s, t, n, k + 3);
    }
  }

  /** Hashing re-parses its own output to the same rounds and salt, so it hashes every password alike. */
  lemma ReparseIsSame(cipher: Cipher, password: CString, salt: CString, other: CString)
    requires Standard(salt) && Hashed(cipher, password, salt).Text?
    ensures var h := Hashed(cipher, password, salt).text;
            Standard(h) && Hashed(cipher, other, h) == Hashed(cipher, other, salt)
  {
    var h := Hashed(cipher, password, salt).text;
    assert h[..SALT_PREFIX] == salt[..SALT_PREFIX];
    StandardAgrees(salt, h);
    OnlyPrefixMatters(cipher, other, salt, h);
  }

  lemma StandardAgrees(s: CString, t: CString)
    requires Standard(s) && Agree(s, t, SALT_PREFIX)
    ensures Standard(t) && Atoi(t[4..]) == Atoi(s[4..])
  {
    assert forall i | 0 <= i < SALT_TEXT :: t[i] == t[..SALT_PREFIX][i] == s[i];
    AtoiStandard(s);
    AtoiStandard(t);
  }

  /** What `hashpw` makes of a standard salt is settled by its first 29 characters. */
  lemma OnlyPrefixMatters(cipher: Cipher, password: CString, s: CString, t: CString)
    requires Standard(s) && Standard(t) && Agree(s, t, SALT_PREFIX) && Atoi(t[4..]) == Atoi(s[4..])
    ensures Hashed(cipher, password, s) == Hashed(cipher, password, t)
  {
    DecodeIsLocal(s, t, SALT_TEXT, SALT_BYTES, SALT_TEXT + EncodedLength(SALT_BYTES));
  }

  /** A password checks against its own hash, for every standard salt. */
  lemma HashVerifies(cipher: Cipher, password: CString, salt: CString)
    requires Standard(salt) && Hashed(cipher, password, salt).Text?
    ensures var h := Hashed(cipher, password, salt).text;
            |h| == 60 < HASH_SIZE && Hashed(cipher, password, h) == Text(h)
  {
    ReparseIsSame(cipher, password, salt, password);
    HashLength(cipher, password, salt);
  }

  /** The text is 60 characters exactly when the salt string has at least 29, and otherwise it is the salt itself. */
  lemma HashLength(cipher: Cipher, password: CString, salt: CString)
    requires Hashed(cipher, password, salt).Text?
    ensures var h := Hashed(cipher, password, salt).text;
            if |salt| >= SALT_PREFIX then |h| == 60 else h == salt && |h| == 28
  {
    if |salt| >= SALT_PREFIX {
      var raw := Decoded(salt, SALT_TEXT, SALT_BYTES).bytes;
      LengthOfEncoded(Digest(cipher, Atoi(salt[4..]), raw, Key(password)));
    } else {
      DecodeNeeds(salt, SALT_TEXT, SALT_BYTES);
    }
  }

  /** n decoded bytes take their encoding's length of text, the last character of which may be the terminator. */
  lemma {:induction false} DecodeNeeds(s: CString, k: nat, need: nat)
    requires Decoded(s, k, need).Bytes? && |Decoded(s, k, need).bytes| == need
    ensures need % 3 == 1 ==> |s| + 1 >= k + EncodedLength(need)
    ensures need % 3 != 1 ==> |s| >= k + EncodedLength(need)
    decreases need
  {
    if need < 3 {
    } else {
      DecodeNeeds(s, k + 4, need - 3);
    }
  }

  /** Every salt `gensalt` can produce is standard, is accepted, and carries its rounds and random bytes. */
  lemma GensaltIsAccepted(cipher: Cipher, password: CString, logRounds: int, raw: seq<byte>)
    requires |raw| == SALT_BYTES
    ensures var salt := Gensalt(logRounds, raw);
            && |salt| == SALT_PREFIX && Standard(salt)
            && Atoi(salt[4..]) == Clamp(logRounds) && Decoded(salt, SALT_TEXT, SALT_BYTES) == Bytes(raw)
            && Hashed(cipher, password, salt)
               == Text(salt + Encoded(Digest(cipher, Clamp(logRounds), raw, Key(password))))
  {
    var salt := Gensalt(logRounds, raw);
    LengthOfEncoded(raw);
    AtoiStandard(salt);
    assert salt[SALT_TEXT..SALT_TEXT + |Encoded(raw)|] == Encoded(raw);
    DecodeUndoesEncode(salt, SALT_TEXT, raw);
    assert salt[..SALT_PREFIX] == salt;
  }

  /** The round trip for `gensalt`: checking the password that was hashed succeeds. */
  lemma GensaltRoundTrip(cipher: Cipher, password: CString, logRounds: int, raw: seq<byte>)
    requires |raw| == SALT_BYTES
    ensures var salt := Gensalt(logRounds, raw);
            && Hashed(cipher, password, salt).Text?
            && var h := Hashed(cipher, password, salt).text;
            |h| == 60 && Hashed(cipher, password, h) == Text(h)
  {
    GensaltIsAccepted(cipher, password, logRounds, raw);
    HashVerifies(cipher, password, Gensalt(logRounds, raw));
  }

  /** A short password's key ends in the terminator, which a cut-off key cannot contain. */
  lemma KeysDiffer(short: CString, long: CString)
    requires |short| < 72 <= |long|
    ensures Key(short) != Key(long)
  {
    assert Key(short)[|short|] == '\0';
    assert Key(long)[|short|] == long[|short|];
  }

  /** Two passwords give the same key exactly when they are equal or agree on at least 72 characters. */
  lemma KeyDecides(p: CString, q: CString)
    ensures Key(p) == Key(q) <==> p == q || (|p| >= 72 && |q| >= 72 && p[..72] == q[..72])
  {
    var kp, kq := p + ['\0'], q + ['\0'];
    assert |p| >= 72 ==> kp[..72] == p[..72];
    assert |q| >= 72 ==> kq[..72] == q[..72];
    assert p == kp[..|kp| - 1] && q == kq[..|kq| - 1];
    if |p| < 72 <= |q| {
      KeysDiffer(p, q);
    } else if |q| < 72 <= |p| {
      KeysDiffer(q, p);
    }
  }

  // ---- Short stored texts ----

  /** A run of dots decodes to zero bytes, the last of which may end at the terminator. */
  lemma {:induction false} DotsDecode(s: CString, k: nat, need: nat)
    requires need % 3 == 1 && |s| + 1 == k + EncodedLength(need)
    requires forall i | k <= i < |s| :: s[i] == '.'
    ensures Decoded(s, k, need).Bytes? && |Decoded(s, k, need).bytes| == need
    decreases need
  {
    if need > 1 {
      DotsDecode(s, k + 4, need - 3);
      assert Quad(s, k, need) == Go([0, 0, 0]);
    } else {
      assert EncodedLength(need) == 2;
      assert Quad(s, k, need) == Stop([0]);
    }
  }

  /** A salt string one character short: marker, ten rounds, and 21 dots. */
  function ShortSalt(): (s: CString)
    ensures |s| == 28 && s[..7] == "$2a$10$" && forall i | 7 <= i < 28 :: s[i] == '.'
  {
    "$2a$10$" + seq(21, _ => '.')
  }

  /** The short case happens: a text of 28 characters parses, and hashing with it gives it back. */
  lemma ShortSaltIsAccepted(cipher: Cipher, password: CString)
    ensures Hashed(cipher, password, ShortSalt()) == Text(ShortSalt())
  {
    var s := ShortSalt();
    assert forall i | 0 <= i < 7 :: s[i] == "$2a$10$"[i];
    ShortHashes(cipher, password, s);
  }

  lemma ShortHashes(cipher: Cipher, password: CString, s: CString)
    requires |s| == 28 && Marked(s) && s[4] == '1' && s[5] == '0' && s[6] == '$'
    requires forall i | 7 <= i < 28 :: s[i] == '.'
    ensures Hashed(cipher, password, s) == Text(s)
  {
    AtoiStandard(s);
    assert EncodedLength(SALT_BYTES) == 22;
    DotsDecode(s, SALT_TEXT, SALT_BYTES);
  }

  /** Two ciphers whose digests differ in the first character. */
  lemma DigestsDiffer(rounds: int, raw: seq<byte>, key: string)
    ensures var zeros, fours: Cipher := (_, _, _, _) => 0, (_, _, _, _) => 4;
            Encoded(Digest(zeros, rounds, raw, key)) != Encoded(Digest(fours, rounds, raw, key))
  {
    var zeros, fours: Cipher := (_, _, _, _) => 0, (_, _, _, _) => 4;
    FirstChar(Digest(zeros, rounds, raw, key));
    FirstChar(Digest(fours, rounds, raw, key));
  }

  lemma FirstChar(src: seq<byte>)
    requires |src| >= 3
    ensures Encoded(src) != [] && Encoded(src)[0] == Char(src[0] / 4)
  {
  }

  /**
   The exact condition: a stored text that parses verifies with every password under every cipher if and only if it is
   shorter than the 29 characters that are copied.
   */
  lemma VerifiesAnyIffShort(cipher: Cipher, password: CString, stored: CString)
    requires Hashed(cipher, password, stored).Text?
    ensures (forall other: Cipher, q: CString :: Hashed(other, q, stored) == Text(stored)) <==> |stored| < SALT_PREFIX
  {
    if |stored| >= SALT_PREFIX {
      var raw := Decoded(stored, SALT_TEXT, SALT_BYTES).bytes;
      var zeros, fours: Cipher := (_, _, _, _) => 0, (_, _, _, _) => 4;
      DigestsDiffer(Atoi(stored[4..]), raw, Key(password));
      var x := Encoded(Digest(zeros, Atoi(stored[4..]), raw, Key(password)));
      var y := Encoded(Digest(fours, Atoi(stored[4..]), raw, Key(password)));
      assert Hashed(zeros, password, stored) == Text(stored[..SALT_PREFIX] + x);
      assert Hashed(fours, password, stored) == Text(stored[..SALT_PREFIX] + y);
      assert (stored[..SALT_PREFIX] + x)[SALT_PREFIX..] == x && (stored[..SALT_PREFIX] + y)[SALT_PREFIX..] == y;
    }
  }

  // ---- What a hash depends on ----

  /** The key is the password's first 72 bytes, or all of them and the terminator when it is shorter. */
  lemma KeyIsPassword(password: CString)
    ensures |Key(password)| == (if |password| < 72 then |password| + 1 else 72)
    ensures forall i | 0 <= i < |Key(password)| ::
              Key(password)[i] == if i < |password| then password[i] else '\0'
  {
  }

  /** The digest's bytes are the cipher's output for these rounds and salt bytes, keyed with the password. */
  predicate IsDigest(bytes: seq<byte>, cipher: Cipher, rounds: int, raw: seq<byte>, password: CString) {
    |bytes| == 23 && forall i | 0 <= i < 23 :: bytes[i] == cipher(rounds, raw, Key(password), i)
  }

  /** The cipher does not tell the two passwords apart. */
  predicate SameDigest(cipher: Cipher, rounds: int, raw: seq<byte>, p: CString, q: CString) {
    forall i: nat | i < 23 :: cipher(rounds, raw, Key(p), i) == cipher(rounds, raw, Key(q), i)
  }

  /** Behind its 29 characters of salt, a hash encodes the cipher's 23 bytes and nothing else. */
  lemma HashCarriesDigest(cipher: Cipher, password: CString, salt: CString)
    requires Hashed(cipher, password, salt).Text? && |salt| >= SALT_PREFIX
    ensures var h, raw := Hashed(cipher, password, salt).text, Decoded(salt, SALT_TEXT, SALT_BYTES);
            && |h| == 60 && h[..SALT_PREFIX] == salt[..SALT_PREFIX] && raw.Bytes? && |raw.bytes| == SALT_BYTES
            && Decoded(h, SALT_PREFIX, 23).Bytes?
            && IsDigest(Decoded(h, SALT_PREFIX, 23).bytes, cipher, Atoi(salt[4..]), raw.bytes, password)
  {
    var h, raw := Hashed(cipher, password, salt).text, Decoded(salt, SALT_TEXT, SALT_BYTES).bytes;
    DecodeLength(salt, SALT_TEXT, SALT_BYTES);
    var d := Digest(cipher, Atoi(salt[4..]), raw, Key(password));
    LengthOfEncoded(d);
    assert h[SALT_PREFIX..SALT_PREFIX + |Encoded(d)|] == Encoded(d);
    DecodeUndoesEncode(h, SALT_PREFIX, d);
  }

  /** The decoder never writes more than it has room for. */
  lemma {:induction false} DecodeLength(s: CString, k: nat, need: nat)
    ensures Decoded(s, k, need).Bytes? ==> |Decoded(s, k, need).bytes| <= need
    decreases need
  {
    if k >= |s| || need == 0 {
    } else if Quad(s, k, need).Go? {
      DecodeLength(s, k + 4, need - 3);
    }
  }

  /** The same for a generated salt: the rounds are the clamped ones and the salt bytes the random ones. */
  lemma GeneratedHashCarriesDigest(cipher: Cipher, password: CString, logRounds: int, raw: seq<byte>)
    requires |raw| == SALT_BYTES
    ensures var r := Hashed(cipher, password, Gensalt(logRounds, raw));
            && r.Text? && |r.text| == 60 && Decoded(r.text, SALT_PREFIX, 23).Bytes?
            && IsDigest(Decoded(r.text, SALT_PREFIX, 23).bytes, cipher, Clamp(logRounds), raw, password)
  {
    GensaltIsAccepted(cipher, password, logRounds, raw);
    HashCarriesDigest(cipher, password, Gensalt(logRounds, raw));
  }

  /** A password checks against the hash of another if and only if the cipher gives both the same 23 bytes. */
  lemma ChecksIffSameDigest(cipher: Cipher, p: CString, q: CString, logRounds: int, raw: seq<byte>)
    requires |raw| == SALT_BYTES
    ensures var r := Hashed(cipher, p, Gensalt(logRounds, raw));
            r.Text? && (Hashed(cipher, q, r.text) == r <==> SameDigest(cipher, Clamp(logRounds), raw, p, q))
  {
    var salt, rounds := Gensalt(logRounds, raw), Clamp(logRounds);
    GensaltIsAccepted(cipher, p, logRounds, raw);
    GensaltIsAccepted(cipher, q, logRounds, raw);
    ReparseIsSame(cipher, p, salt, q);
    var dp, dq := Digest(cipher, rounds, raw, Key(p)), Digest(cipher, rounds, raw, Key(q));
    SameTextSameDigest(salt, dp, dq);
    if dp == dq {
      forall i: nat | i < 23 ensures cipher(rounds, raw, Key(p), i) == cipher(rounds, raw, Key(q), i) {
        assert dp[i] == dq[i];
      }
    }
  }

  lemma SameTextSameDigest(salt: CString, x: seq<byte>, y: seq<byte>)
    requires |x| == |y|
    ensures salt + Encoded(x) == salt + Encoded(y) <==> x == y
  {
    if salt + Encoded(x) == salt + Encoded(y) {
      assert (salt + Encoded(x))[|salt|..] == Encoded(x) && (salt + Encoded(y))[|salt|..] == Encoded(y);
      assert Encoded(x)[0..0 + |Encoded(x)|] == Encoded(x);
      DecodeUndoesEncode(Encoded(x), 0, x);
      DecodeUndoesEncode(Encoded(y), 0, y);
    }
  }

  /**
   Hashing one password and checking another, as the service does: 0 if and only if the cipher gives both the same 23
   bytes; so for a cipher that tells their keys apart, if and only if they agree or agree on 72 characters.
   */
  method HashThenCheck(cipher: Cipher, p: CString, q: CString, logRounds: int, raw: seq<byte>) returns (code: int)
    requires |raw| == SALT_BYTES
    ensures code in {0, 1} && (code == 0 <==> SameDigest(cipher, Clamp(logRounds), raw, p, q))
    ensures (Key(p) != Key(q) ==> !SameDigest(cipher, Clamp(logRounds), raw, p, q)) ==>
              (code == 0 <==> p == q || (|p| >= 72 && |q| >= 72 && p[..72] == q[..72]))
  {
    var stored := HashPw(cipher, p, Gensalt(logRounds, raw));
    ChecksIffSameDigest(cipher, p, q, logRounds, raw);
    GensaltIsAccepted(cipher, q, logRounds, raw);
    ReparseIsSame(cipher, p, Gensalt(logRounds, raw), q);
    KeyDecides(p, q);
    var overRead;
    code, overRead := CheckPw(cipher, q, stored.text);
  }

  /** Which salt strings are accepted: the two markers, rounds from 4 to 31, and sixteen bytes behind them. */
  lemma AcceptedIff(cipher: Cipher, password: CString, salt: CString)
    ensures Hashed(cipher, password, salt).Text? <==>
            && |salt| >= 4 && (salt[..4] == "$2a$" || salt[..4] == "$2b$") && 4 <= Atoi(salt[4..]) <= 31
            && Decoded(salt, SALT_TEXT, SALT_BYTES).Bytes? && |Decoded(salt, SALT_TEXT, SALT_BYTES).bytes| == SALT_BYTES
  {
    DecodeLength(salt, SALT_TEXT, SALT_BYTES);
    if |salt| >= 4 {
      var m := salt[..4];
      assert m[0] == salt[0] && m[1] == salt[1] && m[2] == salt[2] && m[3] == salt[3];
      assert m == [salt[0], salt[1], salt[2], salt[3]];
    }
  }

  // ---- Reading the rounds ----

  /** The value of decimal digits by position. */
  function Decimal(digits: string): int {
    if digits == [] then 0 else Decimal(digits[..|digits| - 1]) * 10 + (digits[|digits| - 1] as int - 48)
  }

  predicate AllDigits(s: string) {
    forall i | 0 <= i < |s| :: IsDigit(s[i])
  }

  lemma {:induction false} DigitsAreDecimal(done: string, digits: string, rest: string)
    requires AllDigits(digits) && (rest != [] ==> !IsDigit(rest[0]))
    ensures DigitsValue(digits + rest, Decimal(done)) == Decimal(done + digits)
    decreases |digits|
  {
    if digits == [] {
      assert digits + rest == rest && done + digits == done;
    } else {
      var more := done + [digits[0]];
      assert more[..|more| - 1] == done;
      assert (digits + rest)[1..] == digits[1..] + rest;
      assert more + digits[1..] == done + digits;
      DigitsAreDecimal(more, digits[1..], rest);
    }
  }

  predicate IsSpace(c: char) {
    c == ' ' || 9 <= c as int <= 13
  }

  /** `atoi` skips white space, takes one sign and reads the number up to the first character that is no digit. */
  lemma {:induction false} AtoiReads(spaces: string, sign: string, digits: string, rest: string)
    requires forall i | 0 <= i < |spaces| :: IsSpace(spaces[i])
    requires sign in {"", "+", "-"} && digits != [] && AllDigits(digits) && (rest != [] ==> !IsDigit(rest[0]))
    ensures Atoi(spaces + (sign + (digits + rest))) == if sign == "-" then -Decimal(digits) else Decimal(digits)
    decreases |spaces|
  {
    var text := sign + (digits + rest);
    if spaces == [] {
      assert spaces + text == text;
      assert IsDigit(digits[0]);
      assert sign == "" ==> text == digits + rest;
      assert sign != "" ==> text[1..] == digits + rest;
      DigitsAreDecimal([], digits, rest);
      assert [] + digits == digits;
    } else {
      assert (spaces + text)[1..] == spaces[1..] + text;
      AtoiReads(spaces[1..], sign, digits, rest);
    }
  }

  // ---- The order of the digits ----

  /** Three bytes are four digits of one 24-bit number, most significant first. */
  lemma GroupIsNumber(a: byte, b: byte, c: byte)
    ensures var g := Group(a, b, c);
            && |g| == 4 && (forall i | 0 <= i < 4 :: 0 <= Value(g[i]) < 64)
            && Value(g[0]) * 0x4_0000 + Value(g[1]) * 0x1000 + Value(g[2]) * 0x40 + Value(g[3])
               == a * 0x1_0000 + b * 0x100 + c
  {
    ValueIsPosition(Char(a / 4), a / 4);
    ValueIsPosition(Char(a % 4 * 16 + b / 16), a % 4 * 16 + b / 16);
    ValueIsPosition(Char(b % 16 * 4 + c / 64), b % 16 * 4 + c / 64);
    ValueIsPosition(Char(c % 64), c % 64);
  }
}
