/** The key-encryption-key salt: its base64 form (section 4 of RFC 4648) and the get-or-create race. */
module KeySalt {
  import opened Basics

  type Byte = n: int | 0 <= n < 256
  type Bytes = seq<Byte>

  const SALT_BYTES: nat := 16

  function EncodeDigit(n: int): char
    requires 0 <= n < 64
  {
    if n < 26 then ('A' as int + n) as char
    else if n < 52 then ('a' as int + n - 26) as char
    else if n < 62 then ('0' as int + n - 52) as char
    else if n == 62 then '+' else '/'
  }

  function DecodeDigit(c: char): Option<int> {
    if 'A' <= c <= 'Z' then Some(c as int - 'A' as int)
    else if 'a' <= c <= 'z' then Some(c as int - 'a' as int + 26)
    else if '0' <= c <= '9' then Some(c as int - '0' as int + 52)
    else if c == '+' then Some(62)
    else if c == '/' then Some(63)
    else None
  }

  /** `base64.b64encode`. */
  function Encode(b: Bytes): string {
    if b == [] then ""
    else if |b| == 1 then [EncodeDigit(b[0] / 4), EncodeDigit(b[0] % 4 * 16), '=', '=']
    else if |b| == 2 then
      [EncodeDigit(b[0] / 4), EncodeDigit(b[0] % 4 * 16 + b[1] / 16), EncodeDigit(b[1] % 16 * 4), '=']
    else
      [EncodeDigit(b[0] / 4), EncodeDigit(b[0] % 4 * 16 + b[1] / 16),
       EncodeDigit(b[1] % 16 * 4 + b[2] / 64), EncodeDigit(b[2] % 64)] + Encode(b[3..])
  }

  function Byte0(d0: int, d1: int): Byte
    requires 0 <= d0 < 64 && 0 <= d1 < 64
  {
    d0 * 4 + d1 / 16
  }

  function Byte1(d1: int, d2: int): Byte
    requires 0 <= d1 < 64 && 0 <= d2 < 64
  {
    d1 % 16 * 16 + d2 / 4
  }

  function Byte2(d2: int, d3: int): Byte
    requires 0 <= d2 < 64 && 0 <= d3 < 64
  {
    d2 % 4 * 64 + d3
  }

  predicate IsDigit(c: char) {
    DecodeDigit(c).Some?
  }

  lemma DigitRange(c: char)
    requires IsDigit(c)
    ensures 0 <= DecodeDigit(c).value < 64
  {
  }

  /** The value of a digit. */
  function Digit(c: char): (n: int)
    requires IsDigit(c)
    ensures 0 <= n < 64
  {
    DigitRange(c);
    DecodeDigit(c).value
  }

  /** `base64.b64decode` with validation: whole groups of four, padding only at the very end. */
  function Decode(s: string): Option<Bytes> {
    if s == "" then Some([])
    else if |s| < 4 || !IsDigit(s[0]) || !IsDigit(s[1]) then None
    else if s[2..] == "==" then Some([Byte0(Digit(s[0]), Digit(s[1]))])
    else if !IsDigit(s[2]) then None
    else if s[3..] == "=" then Some([Byte0(Digit(s[0]), Digit(s[1])), Byte1(Digit(s[1]), Digit(s[2]))])
    else if !IsDigit(s[3]) then None
    else
      var rest := Decode(s[4..]);
      if rest.None? then None
      else Some([Byte0(Digit(s[0]), Digit(s[1])), Byte1(Digit(s[1]), Digit(s[2])),
                 Byte2(Digit(s[2]), Digit(s[3]))] + rest.value)
  }

  /** `_decode_salt`: the stored string must decode to exactly sixteen bytes. */
  function DecodeSalt(s: string): Option<Bytes> {
    var b := Decode(s);
    if b.Some? && |b.value| == SALT_BYTES then b else None
  }

  lemma DigitRoundTrip(n: int)
    requires 0 <= n < 64
    ensures IsDigit(EncodeDigit(n)) && Digit(EncodeDigit(n)) == n
  {
  }

  lemma Bits0(x: Byte, y: Byte)
    ensures 0 <= x / 4 < 64 && 0 <= x % 4 * 16 + y / 16 < 64
    ensures Byte0(x / 4, x % 4 * 16 + y / 16) == x && (x % 4 * 16 + y / 16) % 16 == y / 16
  {
  }

  lemma Bits1(d1: int, y: Byte, z: Byte)
    requires 0 <= d1 < 64 && d1 % 16 == y / 16
    ensures 0 <= y % 16 * 4 + z / 64 < 64
    ensures Byte1(d1, y % 16 * 4 + z / 64) == y && (y % 16 * 4 + z / 64) % 4 == z / 64
  {
  }

  lemma Bits2(d2: int, z: Byte)
    requires 0 <= d2 < 64 && d2 % 4 == z / 64
    ensures 0 <= z % 64 < 64 && Byte2(d2, z % 64) == z
  {
  }

  lemma OneByte(x: Byte)
    ensures Decode(Encode([x])) == Some([x])
  {
    Bits0(x, 0);
    DigitRoundTrip(x / 4);
    DigitRoundTrip(x % 4 * 16);
    assert Encode([x])[2..] == "==";
  }

  lemma TwoBytes(x: Byte, y: Byte)
    ensures Decode(Encode([x, y])) == Some([x, y])
  {
    var d1 := x % 4 * 16 + y / 16;
    Bits0(x, y);
    Bits1(d1, y, 0);
    DigitRoundTrip(x / 4);
    DigitRoundTrip(d1);
    DigitRoundTrip(y % 16 * 4);
    var s := Encode([x, y]);
    assert s[2..][0] == EncodeDigit(y % 16 * 4) && s[3..] == "=";
  }

  /** A group of four digits in front of an encoded rest decodes to three bytes in front of the rest. */
  lemma GroupDecodes(x: Byte, y: Byte, z: Byte, tail: string)
    requires Decode(tail).Some?
    ensures var d1, d2 := x % 4 * 16 + y / 16, y % 16 * 4 + z / 64;
            && 0 <= d1 < 64 && 0 <= d2 < 64
            && Decode([EncodeDigit(x / 4), EncodeDigit(d1), EncodeDigit(d2), EncodeDigit(z % 64)] + tail) ==
                Some([x, y, z] + Decode(tail).value)
  {
    var d1, d2 := x % 4 * 16 + y / 16, y % 16 * 4 + z / 64;
    Bits0(x, y);
    Bits1(d1, y, z);
    Bits2(d2, z);
    DigitRoundTrip(x / 4);
    DigitRoundTrip(d1);
    DigitRoundTrip(d2);
    DigitRoundTrip(z % 64);
    var s := [EncodeDigit(x / 4), EncodeDigit(d1), EncodeDigit(d2), EncodeDigit(z % 64)] + tail;
    assert s[2..][0] == EncodeDigit(d2) && s[3..][0] == EncodeDigit(z % 64) && s[4..] == tail;
  }

  lemma SplitGroup(b: Bytes)
    requires |b| >= 3
    ensures b == [b[0], b[1], b[2]] + b[3..]
  {
  }

  /** Decoding what was encoded gives the bytes back, for every byte string. */
  lemma {:induction false} Base64RoundTrip(b: Bytes)
    ensures Decode(Encode(b)) == Some(b)
  {
    if |b| == 1 {
      OneByte(b[0]);
      assert b == [b[0]];
    } else if |b| == 2 {
      TwoBytes(b[0], b[1]);
      assert b == [b[0], b[1]];
    } else if |b| >= 3 {
      Base64RoundTrip(b[3..]);
      GroupDecodes(b[0], b[1], b[2], Encode(b[3..]));
      SplitGroup(b);
    }
  }

  // ----- the form of section 4 of RFC 4648 -----

  /** The alphabet: A to Z, a to z, 0 to 9, plus and slash, each run in order. */
  lemma DigitsOfAlphabet(n: int)
    requires 0 <= n < 64
    ensures n in {0, 26, 52, 62, 63} ==>
              EncodeDigit(n) == if n == 0 then 'A' else if n == 26 then 'a' else if n == 52 then '0'
                                else if n == 62 then '+' else '/'
    ensures n > 0 && n !in {26, 52, 62, 63} ==> EncodeDigit(n) as int == EncodeDigit(n - 1) as int + 1
  {
  }

  /** Four digits carry the same 24 bits as the three bytes they encode; a last group of two bytes or of
      one is filled up with zero bits and padded. */
  lemma EncodesBits(b: Bytes)
    requires b != []
    ensures |Encode(b)| >= 4 && Encode(b)[4..] == (if |b| <= 3 then "" else Encode(b[3..]))
    ensures var s, x: int := Encode(b), b[0];
            var y: int, z: int := if |b| > 1 then b[1] else 0, if |b| > 2 then b[2] else 0;
            && IsDigit(s[0]) && IsDigit(s[1])
            && (if |b| == 1 then s[2] == '=' else IsDigit(s[2])) && (if |b| <= 2 then s[3] == '=' else IsDigit(s[3]))
            && x * 65536 + y * 256 + z ==
               Digit(s[0]) * 262144 + Digit(s[1]) * 4096
               + (if |b| == 1 then 0 else Digit(s[2]) * 64) + (if |b| <= 2 then 0 else Digit(s[3]))
  {
    var y, z := if |b| > 1 then b[1] else 0, if |b| > 2 then b[2] else 0;
    DigitRoundTrip(b[0] / 4);
    DigitRoundTrip(b[0] % 4 * 16 + y / 16);
    DigitRoundTrip(y % 16 * 4 + z / 64);
    DigitRoundTrip(z % 64);
    if |b| == 3 {
      assert b[3..] == [];
    }
  }

  // ----- the get-or-create race -----

  /** Where a caller of `_get_or_create_kek_salt` stands. */
  datatype Caller = Start | Creating(salt: Bytes) | Lost | Done(salt: Bytes) | InvalidSalt | MissingSalt

  /** The settings row, every value ever written to it, and the callers. */
  datatype System = System(row: Option<string>, written: seq<string>, callers: seq<Caller>)

  datatype Step = Call | Read(caller: nat, drawn: Bytes) | Create(caller: nat) | Reread(caller: nat)

  ghost function FromRow(row: string): Caller {
    var salt := DecodeSalt(row);
    if salt.Some? then Done(salt.value) else InvalidSalt
  }

  /** One atomic read or queued create; `drawn` are the random bytes drawn when no row was found. */
  ghost function Next(s: System, step: Step): System {
    match step
    case Call => s.(callers := s.callers + [Start])
    case Read(c, drawn) =>
      if c < |s.callers| && s.callers[c] == Start && |drawn| == SALT_BYTES then
        s.(callers := s.callers[c := if s.row.Some? then FromRow(s.row.value) else Creating(drawn)])
      else s
    case Create(c) =>
      if c < |s.callers| && s.callers[c].Creating? then
        if s.row.Some? then s.(callers := s.callers[c := Lost])
        else System(Some(Encode(s.callers[c].salt)), s.written + [Encode(s.callers[c].salt)],
                    s.callers[c := Done(s.callers[c].salt)])
      else s
    case Reread(c) =>
      if c < |s.callers| && s.callers[c] == Lost then
        s.(callers := s.callers[c := if s.row.Some? then FromRow(s.row.value) else MissingSalt])
      else s
  }

  ghost predicate CallerFits(row: Option<string>, c: Caller) {
    match c
    case Start => true
    case Creating(salt) => |salt| == SALT_BYTES
    case Lost => row.Some?
    case Done(_) => row.Some? && FromRow(row.value) == c
    case InvalidSalt => row.Some? && FromRow(row.value) == InvalidSalt
    case MissingSalt => false
  }

  ghost predicate Inv(initial: Option<string>, s: System) {
    && (forall c | 0 <= c < |s.callers| :: CallerFits(s.row, s.callers[c]))
    && (if initial.Some? then s.row == initial && s.written == []
        else if s.row.None? then s.written == []
        else s.written == [s.row.value] && FromRow(s.row.value).Done?)
  }

  lemma WrittenSaltReads(salt: Bytes)
    requires |salt| == SALT_BYTES
    ensures FromRow(Encode(salt)) == Done(salt)
  {
    Base64RoundTrip(salt);
  }

  lemma StepKeeps(initial: Option<string>, s: System, step: Step)
    requires Inv(initial, s)
    ensures Inv(initial, Next(s, step))
  {
    if step.Create? && step.caller < |s.callers| && s.callers[step.caller].Creating? {
      WrittenSaltReads(s.callers[step.caller].salt);
    }
  }

  ghost function Run(initial: Option<string>, steps: seq<Step>): System {
    if steps == [] then System(initial, [], [])
    else Next(Run(initial, steps[..|steps| - 1]), steps[|steps| - 1])
  }

  lemma {:induction false} RunKeeps(initial: Option<string>, steps: seq<Step>)
    ensures Inv(initial, Run(initial, steps))
  {
    if steps != [] {
      RunKeeps(initial, steps[..|steps| - 1]);
      StepKeeps(initial, Run(initial, steps[..|steps| - 1]), steps[|steps| - 1]);
    }
  }

  /** Salt agreement, for any number of callers in any interleaving: the row is written at most once,
      no caller misses it, any two callers that return agree with each other and with the row, and
      starting without a row nobody fails. */
  lemma SaltAgreement(initial: Option<string>, steps: seq<Step>, c: nat, d: nat)
    requires c < |Run(initial, steps).callers| && d < |Run(initial, steps).callers|
    ensures var s := Run(initial, steps);
            && |s.written| <= 1 && s.callers[c] != MissingSalt
            && (s.callers[c].Done? ==>
                  && |s.callers[c].salt| == 16
                  && s.row.Some? && DecodeSalt(s.row.value) == Some(s.callers[c].salt))
            && (s.callers[c].Done? && s.callers[d].Done? ==> s.callers[c] == s.callers[d])
            && (initial.None? ==> s.callers[c] != InvalidSalt)
  {
    RunKeeps(initial, steps);
    var s := Run(initial, steps);
    assert CallerFits(s.row, s.callers[c]) && CallerFits(s.row, s.callers[d]);
  }
}
