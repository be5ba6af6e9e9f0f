/** The A-Warrior BMS General Protocol V4 wire codec (class AWarriorBMS):
    request framing, the 16-bit checksum, the structural check applied to
    responses, and decoding of the cell-voltage (0x04) and basic-info (0x03)
    responses.

    Frame layout: START 0xDD, STATUS, CMD, LEN, LEN payload bytes,
    CK_HI, CK_LO, STOP 0x77. */
module BmsProtocol {
  import opened Wrappers

  type Byte = b: int | 0 <= b < 256

  const START_BYTE: Byte := 0xDD
  const STOP_BYTE: Byte := 0x77
  const STATUS_READ: Byte := 0xA5
  const STATUS_WRITE: Byte := 0x5A
  const CMD_BASIC_INFO: Byte := 0x03
  const CMD_CELL_VOLTAGES: Byte := 0x04
  const CMD_VERSION: Byte := 0x05
  const CMD_MOS_CONTROL: Byte := 0xE1

  /** Framing overhead: START, STATUS, CMD, LEN, two checksum bytes, STOP. */
  const FRAME_OVERHEAD := 7
  /** Fixed part of the basic-info payload before the temperature words. */
  const BASIC_INFO_PREFIX := 23

  function Min(a: int, b: int): int { if a <= b then a else b }

  /** Python's sum() over a list of integers. */
  function Sum(xs: seq<int>): int {
    if xs == [] then 0 else Sum(xs[..|xs| - 1]) + xs[|xs| - 1]
  }

  lemma {:induction false} SumAppend(xs: seq<int>, ys: seq<int>)
    ensures Sum(xs + ys) == Sum(xs) + Sum(ys)
  {
    if ys == [] {
      assert xs + ys == xs;
    } else {
      assert (xs + ys)[..|xs + ys| - 1] == xs + ys[..|ys| - 1];
      SumAppend(xs, ys[..|ys| - 1]);
    }
  }

  // ── Checksum ─────────────────────────────────────────────────────────────

  /** calculate_checksum: on Python's unbounded integers `~s + 1` is `-s`,
      and `& 0xFFFF` keeps its non-negative residue modulo 2^16; the pair is
      that residue split into its high and low byte. */
  function CalculateChecksum(data: seq<int>): (ck: (Byte, Byte))
    ensures (Sum(data) + U16(ck.0, ck.1)) % 0x10000 == 0
  {
    var c := (-Sum(data)) % 0x10000;
    (c / 256, c % 256)
  }

  lemma ResidueUnique(s: int, x: int, y: int)
    requires 0 <= x < 0x10000 && 0 <= y < 0x10000
    requires (s + x) % 0x10000 == 0 && (s + y) % 0x10000 == 0
    ensures x == y
  {
    var p := (s + x) / 0x10000;
    var q := (s + y) / 0x10000;
    assert s + x == p * 0x10000;
    assert s + y == q * 0x10000;
    assert x - y == (p - q) * 0x10000;
  }

  /** The checksum bytes are the only byte pair that brings the 16-bit sum
      of the covered bytes and the checksum word to zero. */
  lemma ChecksumUnique(data: seq<int>, hi: Byte, lo: Byte)
    ensures (Sum(data) + U16(hi, lo)) % 0x10000 == 0 <==> (hi, lo) == CalculateChecksum(data)
  {
    var ck := CalculateChecksum(data);
    var s, w, c := Sum(data), U16(hi, lo), U16(ck.0, ck.1);
    assert (s + c) % 0x10000 == 0;
    if (s + w) % 0x10000 == 0 {
      assert 0 <= w < 0x10000 && 0 <= c < 0x10000;
      ResidueUnique(s, w, c);
      U16Injective(hi, lo, ck.0, ck.1);
    }
  }

  // ── Frame building ───────────────────────────────────────────────────────

  /** build_request_frame. Python's bytes([...]) raises ValueError when the
      command, a payload value or the length does not fit in a byte; that
      error is the None result. */
  function BuildRequestFrame(cmd: int, payload: seq<int> := []): (f: Option<seq<Byte>>)
    ensures f.Some? <==> 0 <= cmd < 256 && |payload| < 256 && forall i :: 0 <= i < |payload| ==> 0 <= payload[i] < 256
    ensures f.Some? ==>
      && |f.value| == FRAME_OVERHEAD + |payload|
      && f.value[0] == START_BYTE && f.value[1] == STATUS_READ
      && f.value[2] == cmd && f.value[3] == |payload|
      && f.value[4..4 + |payload|] == payload
      && (Sum([cmd, |payload|] + payload) + U16(f.value[|f.value| - 3], f.value[|f.value| - 2])) % 0x10000 == 0
      && f.value[|f.value| - 1] == STOP_BYTE
  {
    if 0 <= cmd < 256 && |payload| < 256 && forall i :: 0 <= i < |payload| ==> 0 <= payload[i] < 256 then
      var ck := CalculateChecksum([cmd, |payload|] + payload);
      var data: seq<Byte> := payload;
      var frame := [START_BYTE, STATUS_READ, cmd, |payload|] + data + [ck.0, ck.1, STOP_BYTE];
      assert frame[4..4 + |payload|] == payload;
      Some(frame)
    else
      None
  }

  lemma SumPair(a: int, b: int)
    ensures Sum([a, b]) == a + b
  {
    assert Sum([a]) == a by {
      assert [a][..0] == [];
    }
    assert [a, b][..1] == [a];
  }

  lemma U16Injective(h1: Byte, l1: Byte, h2: Byte, l2: Byte)
    requires U16(h1, l1) == U16(h2, l2)
    ensures h1 == h2 && l1 == l2
  {
  }

  /** A request without payload: the checksum of [cmd, 0] is 0xFF, 256 - cmd. */
  lemma EmptyRequestFrame(cmd: Byte)
    requires cmd > 0
    ensures BuildRequestFrame(cmd) == Some([START_BYTE, STATUS_READ, cmd, 0, 0xFF, 256 - cmd, STOP_BYTE])
  {
    assert [cmd, 0] + [] == [cmd, 0];
    SumPair(cmd, 0);
    var c := 0x10000 - cmd;
    assert (-(cmd as int)) % 0x10000 == c;
    assert c == 255 * 256 + (256 - cmd);
    assert c / 256 == 255 && c % 256 == 256 - cmd;
    assert CalculateChecksum([cmd, 0]) == (0xFF, 256 - cmd);
    var none: seq<int> := [];
    var f := BuildRequestFrame(cmd, none).value;
    assert [cmd as int, |none|] + none == [cmd, 0];
    ChecksumUnique([cmd, 0], f[4], f[5]);
    assert f == [START_BYTE, STATUS_READ, cmd, 0, 0xFF, 256 - cmd, STOP_BYTE];
  }

  function GetBasicInfoRequest(): (f: seq<Byte>)
    ensures f == [0xDD, 0xA5, 0x03, 0x00, 0xFF, 0xFD, 0x77]
  {
    EmptyRequestFrame(CMD_BASIC_INFO);
    BuildRequestFrame(CMD_BASIC_INFO).value
  }

  function GetCellVoltagesRequest(): (f: seq<Byte>)
    ensures f == [0xDD, 0xA5, 0x04, 0x00, 0xFF, 0xFC, 0x77]
  {
    EmptyRequestFrame(CMD_CELL_VOLTAGES);
    BuildRequestFrame(CMD_CELL_VOLTAGES).value
  }

  function GetVersionRequest(): (f: seq<Byte>)
    ensures f == [0xDD, 0xA5, 0x05, 0x00, 0xFF, 0xFB, 0x77]
  {
    EmptyRequestFrame(CMD_VERSION);
    BuildRequestFrame(CMD_VERSION).value
  }

  // ── Validation ───────────────────────────────────────────────────────────

  /** validate_response: a structural check only; an accepted frame has
      exactly LEN payload bytes. */
  predicate ValidateResponse(r: seq<Byte>)
    ensures ValidateResponse(r) ==> |r| >= FRAME_OVERHEAD && |Payload(r)| == r[3]
  {
    && |r| >= FRAME_OVERHEAD
    && r[0] == START_BYTE
    && r[|r| - 1] == STOP_BYTE
    && |r| == FRAME_OVERHEAD + r[3]
  }

  /** The payload region response[4:-3]. */
  function Payload(r: seq<Byte>): seq<Byte>
    requires |r| >= FRAME_OVERHEAD
  {
    r[4..|r| - 3]
  }

  /** What a validator that did recompute the checksum would demand: the
      checksum word cancels the sum of [CMD, LEN] + payload modulo 2^16. */
  predicate ChecksumMatches(r: seq<Byte>) {
    |r| >= FRAME_OVERHEAD && (Sum(r[2..|r| - 3]) + U16(r[|r| - 3], r[|r| - 2])) % 0x10000 == 0
  }

  /** A frame built by BuildRequestFrame passes validation, carries its
      payload at bytes 4 .. |f|-3, and its checksum is the one a
      recomputing validator would find. */
  lemma BuiltFrameValidates(cmd: int, payload: seq<int>)
    requires BuildRequestFrame(cmd, payload).Some?
    ensures var f := BuildRequestFrame(cmd, payload).value;
      ValidateResponse(f) && Payload(f) == payload && ChecksumMatches(f)
  {
    var f := BuildRequestFrame(cmd, payload).value;
    assert f[2..|f| - 3] == [cmd, |payload|] + payload;
  }

  /** Validation reads only the length, byte 0, byte 3 and the last byte:
      frames agreeing there are accepted or refused together, whatever
      their status, command, payload and checksum bytes. */
  lemma ValidationIgnoresUninspectedBytes(r: seq<Byte>, s: seq<Byte>)
    requires |r| == |s| && |r| >= 4
    requires r[0] == s[0] && r[3] == s[3] && r[|r| - 1] == s[|s| - 1]
    ensures ValidateResponse(r) <==> ValidateResponse(s)
  {
  }

  /** The checksum gap: a frame whose checksum is wrong is accepted. */
  lemma CorruptedChecksumAccepted()
    ensures var r: seq<Byte> := [0xDD, 0xA5, 0x04, 0x00, 0x00, 0x00, 0x77];
      ValidateResponse(r) && !ChecksumMatches(r)
  {
    var r: seq<Byte> := [0xDD, 0xA5, 0x04, 0x00, 0x00, 0x00, 0x77];
    assert r[2..|r| - 3] == [4, 0];
    SumPair(4, 0);
  }

  // ── Big-endian words ─────────────────────────────────────────────────────

  /** struct.unpack('>H', ...) */
  function U16(hi: Byte, lo: Byte): int { hi * 256 + lo }

  /** struct.unpack('>h', ...): two's complement of the big-endian word. */
  function S16(hi: Byte, lo: Byte): int {
    var u := U16(hi, lo);
    if u >= 0x8000 then u - 0x10000 else u
  }

  predicate AllWords(ws: seq<int>) {
    forall i :: 0 <= i < |ws| ==> 0 <= ws[i] < 0x10000
  }

  /** The big-endian byte pairs of a list of 16-bit words. */
  function EncodeWords(ws: seq<int>): seq<Byte>
    requires AllWords(ws)
  {
    if ws == [] then [] else [ws[0] / 256, ws[0] % 256] + EncodeWords(ws[1..])
  }

  lemma {:induction false} EncodeWordsAt(ws: seq<int>, k: nat)
    requires AllWords(ws) && k < |ws|
    ensures |EncodeWords(ws)| == 2 * |ws|
    ensures EncodeWords(ws)[2 * k] == ws[k] / 256 && EncodeWords(ws)[2 * k + 1] == ws[k] % 256
    ensures U16(EncodeWords(ws)[2 * k], EncodeWords(ws)[2 * k + 1]) == ws[k]
  {
    if k > 0 {
      EncodeWordsAt(ws[1..], k - 1);
    } else if |ws| > 1 {
      EncodeWordsAt(ws[1..], 0);
    }
  }

  lemma EncodeWordsLength(ws: seq<int>)
    requires AllWords(ws)
    ensures |EncodeWords(ws)| == 2 * |ws|
  {
    if ws != [] { EncodeWordsAt(ws, 0); }
  }

  // ── Cell voltages (command 0x04) ─────────────────────────────────────────

  /** Millivolts to volts. The source's round(mv / 1000.0, 3) returns the
      value nearest to this quotient, which already has three decimals. */
  function Volts(mv: int): real { mv as real / 1000.0 }

  /** Specification of parse_cell_voltages: one value per complete byte pair
      of the payload; None when validation fails. */
  function CellVoltagesOf(r: seq<Byte>): (vs: Option<seq<real>>)
    ensures vs.Some? <==> ValidateResponse(r)
    ensures vs.Some? ==> |vs.value| == r[3] / 2
  {
    if !ValidateResponse(r) then None
    else
      var d := Payload(r);
      Some(seq(|d| / 2, i requires 0 <= i < |d| / 2 => Volts(U16(d[2 * i], d[2 * i + 1]))))
  }

  /** parse_cell_voltages, with its loop over range(0, len(data) - 1, 2). */
  method ParseCellVoltages(r: seq<Byte>) returns (vs: Option<seq<real>>)
    ensures vs == CellVoltagesOf(r)
  {
    if !ValidateResponse(r) {
      return None;
    }
    var data := r[4..|r| - 3];
    var voltages: seq<real> := [];
    var i := 0;
    while i < |data| - 1
      invariant 0 <= i <= |data| && i % 2 == 0
      invariant |voltages| == i / 2
      invariant forall k :: 0 <= k < i / 2 ==> voltages[k] == Volts(U16(data[2 * k], data[2 * k + 1]))
    {
      var mv := U16(data[i], data[i + 1]);
      voltages := voltages + [Volts(mv)];
      i := i + 2;
    }
    assert i / 2 == |data| / 2;
    assert voltages == CellVoltagesOf(r).value;
    return Some(voltages);
  }

  /** Shape of the decoded list: absent exactly when validation fails,
      otherwise LEN div 2 values, value i from payload bytes 2i and 2i+1. */
  lemma CellVoltagesShape(r: seq<Byte>)
    ensures CellVoltagesOf(r).None? <==> !ValidateResponse(r)
    ensures CellVoltagesOf(r).Some? ==>
      var vs := CellVoltagesOf(r).value;
      && |vs| == r[3] / 2
      && forall i :: 0 <= i < |vs| ==> vs[i] == Volts(U16(r[4 + 2 * i], r[5 + 2 * i]))
  {
  }

  /** A trailing odd payload byte is ignored: valid frames whose payloads
      differ only in that byte decode to the same voltages. */
  lemma CellVoltagesIgnoreTrailingByte(r: seq<Byte>, s: seq<Byte>)
    requires ValidateResponse(r) && ValidateResponse(s)
    requires r[3] == s[3] && r[3] % 2 == 1
    requires Payload(r)[..r[3] - 1] == Payload(s)[..s[3] - 1]
    ensures CellVoltagesOf(r) == CellVoltagesOf(s)
  {
    var d, e := Payload(r), Payload(s);
    var vr, vs := CellVoltagesOf(r).value, CellVoltagesOf(s).value;
    assert |vr| == |vs| == |d| / 2;
    forall i | 0 <= i < |d| / 2
      ensures vr[i] == vs[i]
    {
      assert 2 * i + 1 < r[3] - 1;
      assert d[2 * i] == d[..r[3] - 1][2 * i];
      assert e[2 * i] == e[..s[3] - 1][2 * i];
      assert d[2 * i + 1] == d[..r[3] - 1][2 * i + 1];
      assert e[2 * i + 1] == e[..s[3] - 1][2 * i + 1];
    }
    assert vr == vs;
  }

  /** Round trip: a valid frame whose payload is the big-endian encoding of
      a list of millivolt words decodes to those values in volts, in order. */
  lemma CellVoltagesRoundTrip(r: seq<Byte>, mvs: seq<int>)
    requires AllWords(mvs)
    requires ValidateResponse(r) && Payload(r) == EncodeWords(mvs)
    ensures CellVoltagesOf(r) == Some(seq(|mvs|, k requires 0 <= k < |mvs| => Volts(mvs[k])))
  {
    var d := Payload(r);
    EncodeWordsLength(mvs);
    var vs := CellVoltagesOf(r).value;
    var expected := seq(|mvs|, k requires 0 <= k < |mvs| => Volts(mvs[k]));
    assert |vs| == |mvs|;
    forall k | 0 <= k < |mvs|
      ensures vs[k] == expected[k]
    {
      EncodeWordsAt(mvs, k);
      assert vs[k] == Volts(U16(d[2 * k], d[2 * k + 1]));
    }
    assert vs == expected;
  }

  /** The same round trip through a frame built by BuildRequestFrame
      (at most 127 words fill at most 254 payload bytes). */
  lemma CellVoltageFrameRoundTrip(mvs: seq<int>)
    requires AllWords(mvs) && |mvs| <= 127
    ensures BuildRequestFrame(CMD_CELL_VOLTAGES, EncodeWords(mvs)).Some?
    ensures CellVoltagesOf(BuildRequestFrame(CMD_CELL_VOLTAGES, EncodeWords(mvs)).value)
         == Some(seq(|mvs|, k requires 0 <= k < |mvs| => Volts(mvs[k])))
  {
    EncodeWordsLength(mvs);
    var p := EncodeWords(mvs);
    assert forall i :: 0 <= i < |p| ==> 0 <= p[i] < 256;
    BuiltFrameValidates(CMD_CELL_VOLTAGES, p);
    CellVoltagesRoundTrip(BuildRequestFrame(CMD_CELL_VOLTAGES, p).value, mvs);
  }

  // ── Basic info (command 0x03) ────────────────────────────────────────────

  /** The dictionary parse_basic_info returns. Temperatures are kept as the
      raw words (tenths of a kelvin); TemperatureCelsius converts them. */
  datatype BasicInfo = BasicInfo(
    totalVoltageMv: int,
    currentMa: int,
    residualCapacityMah: int,
    nominalCapacityMah: int,
    cycleLife: int,
    protectionStatus: int,
    softwareVersion: Byte,
    rsocPercent: Byte,
    fetStatus: Byte,
    cellCount: Byte,
    ntcCount: Byte,
    temperaturesRaw: seq<int>)

  /** (raw * 0.1) - 273.15, before the source's round(..., 1). */
  function TemperatureCelsius(raw: int): real { raw as real * 0.1 - 273.15 }

  function TemperaturesCelsius(info: BasicInfo): (ts: seq<real>)
    ensures |ts| == |info.temperaturesRaw|
    ensures forall k :: 0 <= k < |ts| ==> ts[k] + 273.15 == info.temperaturesRaw[k] as real / 10.0
  {
    seq(|info.temperaturesRaw|, k requires 0 <= k < |info.temperaturesRaw| => TemperatureCelsius(info.temperaturesRaw[k]))
  }

  /** The temperature words: as many of ntc as fit after the prefix. */
  function TemperaturesOf(d: seq<Byte>, ntc: nat): seq<int>
    requires |d| >= BASIC_INFO_PREFIX
  {
    var n := Min(ntc, (|d| - BASIC_INFO_PREFIX) / 2);
    seq(n, k requires 0 <= k < n => U16(d[BASIC_INFO_PREFIX + 2 * k], d[BASIC_INFO_PREFIX + 2 * k + 1]))
  }

  /** The fixed fields of the payload, and the temperatures that follow. */
  function DecodeBasicInfo(d: seq<Byte>): BasicInfo
    requires |d| >= BASIC_INFO_PREFIX
  {
    BasicInfo(
      U16(d[0], d[1]) * 10,
      S16(d[2], d[3]) * 10,
      U16(d[4], d[5]) * 10,
      U16(d[6], d[7]) * 10,
      U16(d[8], d[9]),
      U16(d[16], d[17]),
      d[18], d[19], d[20], d[21], d[22],
      TemperaturesOf(d, d[22]))
  }

  /** Specification of parse_basic_info. */
  function BasicInfoOf(r: seq<Byte>): (info: Option<BasicInfo>)
    ensures info.Some? <==> ValidateResponse(r) && r[3] >= BASIC_INFO_PREFIX
    ensures info.Some? ==> info.value.ntcCount == r[4 + 22] && |info.value.temperaturesRaw| <= info.value.ntcCount
  {
    if !ValidateResponse(r) || |Payload(r)| < BASIC_INFO_PREFIX then None
    else Some(DecodeBasicInfo(Payload(r)))
  }

  /** parse_basic_info, with its temperature loop: `offset` advances only
      when a whole word is still available. */
  method ParseBasicInfo(r: seq<Byte>) returns (info: Option<BasicInfo>)
    ensures info == BasicInfoOf(r)
  {
    if !ValidateResponse(r) {
      return None;
    }
    var data := r[4..|r| - 3];
    if |data| < BASIC_INFO_PREFIX {
      return None;
    }
    var ntc := data[22];
    var temperatures: seq<int> := [];
    var offset := BASIC_INFO_PREFIX;
    var n := 0;
    while n < ntc
      invariant 0 <= n <= ntc
      invariant offset == BASIC_INFO_PREFIX + 2 * |temperatures| <= |data|
      invariant |temperatures| == Min(n, (|data| - BASIC_INFO_PREFIX) / 2)
      invariant forall k :: 0 <= k < |temperatures| ==>
        temperatures[k] == U16(data[BASIC_INFO_PREFIX + 2 * k], data[BASIC_INFO_PREFIX + 2 * k + 1])
    {
      if offset + 2 <= |data| {
        temperatures := temperatures + [U16(data[offset], data[offset + 1])];
        offset := offset + 2;
      }
      n := n + 1;
    }
    assert temperatures == TemperaturesOf(data, ntc);
    info := Some(BasicInfo(
      U16(data[0], data[1]) * 10,
      S16(data[2], data[3]) * 10,
      U16(data[4], data[5]) * 10,
      U16(data[6], data[7]) * 10,
      U16(data[8], data[9]),
      U16(data[16], data[17]),
      data[18], data[19], data[20], data[21], ntc,
      temperatures));
  }

  /** What a decoded basic-info record looks like: absent exactly when the
      frame fails validation or the payload is shorter than 23 bytes; the
      current is a signed word times ten; the other scaled fields are
      unsigned words times ten; the temperature list has
      min(ntc_count, (|payload| - 23) div 2) consecutive words from offset 23. */
  lemma BasicInfoShape(r: seq<Byte>)
    ensures BasicInfoOf(r).None? <==> !ValidateResponse(r) || r[3] < BASIC_INFO_PREFIX
    ensures BasicInfoOf(r).Some? ==>
      var info := BasicInfoOf(r).value;
      var d := Payload(r);
      && -327680 <= info.currentMa <= 327670 && info.currentMa % 10 == 0
      && 0 <= info.totalVoltageMv <= 655350 && info.totalVoltageMv % 10 == 0
      && 0 <= info.residualCapacityMah <= 655350 && info.residualCapacityMah % 10 == 0
      && 0 <= info.nominalCapacityMah <= 655350 && info.nominalCapacityMah % 10 == 0
      && 0 <= info.cycleLife < 0x10000
      && info.protectionStatus == U16(d[16], d[17])
      && info.ntcCount == d[22]
      && |info.temperaturesRaw| == Min(d[22], (|d| - BASIC_INFO_PREFIX) / 2)
      && forall k :: 0 <= k < |info.temperaturesRaw| ==>
           info.temperaturesRaw[k] == U16(d[BASIC_INFO_PREFIX + 2 * k], d[BASIC_INFO_PREFIX + 2 * k + 1])
  {
  }

  /** The temperatures of a decoded frame, in degrees Celsius: one per
      temperature word that fits in the payload, at most ntc_count of them,
      each the word in tenths of a kelvin, so never below absolute zero and
      never above 65535 / 10 - 273.15. */
  lemma DecodedTemperatures(r: seq<Byte>)
    requires BasicInfoOf(r).Some?
    ensures var info := BasicInfoOf(r).value;
      var ts := TemperaturesCelsius(info);
      && |ts| == Min(info.ntcCount, (r[3] - BASIC_INFO_PREFIX) / 2) <= info.ntcCount
      && forall k :: 0 <= k < |ts| ==>
           && ts[k] + 273.15 == U16(r[4 + BASIC_INFO_PREFIX + 2 * k], r[4 + BASIC_INFO_PREFIX + 2 * k + 1]) as real / 10.0
           && -273.15 <= ts[k] <= 6280.35
  {
    BasicInfoShape(r);
    var d := Payload(r);
    var info := BasicInfoOf(r).value;
    forall k | 0 <= k < |info.temperaturesRaw|
      ensures 0 <= info.temperaturesRaw[k] <= 65535
      ensures info.temperaturesRaw[k] == U16(r[4 + BASIC_INFO_PREFIX + 2 * k], r[4 + BASIC_INFO_PREFIX + 2 * k + 1])
    {
      assert d[BASIC_INFO_PREFIX + 2 * k] == r[4 + BASIC_INFO_PREFIX + 2 * k];
      assert d[BASIC_INFO_PREFIX + 2 * k + 1] == r[4 + BASIC_INFO_PREFIX + 2 * k + 1];
    }
  }

  /** The fixed fields do not depend on the temperature bytes: valid frames
      whose payloads share the 23-byte prefix decode to the same fields. */
  lemma BasicInfoFieldsIgnoreTemperatures(r: seq<Byte>, s: seq<Byte>)
    requires BasicInfoOf(r).Some? && BasicInfoOf(s).Some?
    requires Payload(r)[..BASIC_INFO_PREFIX] == Payload(s)[..BASIC_INFO_PREFIX]
    ensures BasicInfoOf(r).value.(temperaturesRaw := []) == BasicInfoOf(s).value.(temperaturesRaw := [])
  {
    var d, e := Payload(r), Payload(s);
    forall i | 0 <= i < BASIC_INFO_PREFIX ensures d[i] == e[i] {
      assert d[i] == d[..BASIC_INFO_PREFIX][i];
      assert e[i] == e[..BASIC_INFO_PREFIX][i];
    }
  }

  // ── Encoding a basic-info record (the BMS side), for the round trip ──────

  predicate IsWord(x: int) { 0 <= x < 0x10000 }

  /** The records a BMS can send: scaled fields are multiples of ten whose
      quotient fits the field's word, and one raw word per announced sensor. */
  predicate Encodable(info: BasicInfo) {
    && info.totalVoltageMv % 10 == 0 && IsWord(info.totalVoltageMv / 10)
    && info.currentMa % 10 == 0 && -0x8000 <= info.currentMa / 10 < 0x8000
    && info.residualCapacityMah % 10 == 0 && IsWord(info.residualCapacityMah / 10)
    && info.nominalCapacityMah % 10 == 0 && IsWord(info.nominalCapacityMah / 10)
    && IsWord(info.cycleLife) && IsWord(info.protectionStatus)
    && AllWords(info.temperaturesRaw) && |info.temperaturesRaw| == info.ntcCount
  }

  function WordBytes(w: int): seq<Byte>
    requires IsWord(w)
  {
    [w / 256, w % 256]
  }

  /** A basic-info payload with zeroed reserved bytes 10..15. */
  function EncodeBasicInfo(info: BasicInfo): (p: seq<Byte>)
    requires Encodable(info)
  {
    var c := info.currentMa / 10;
    WordBytes(info.totalVoltageMv / 10)
      + WordBytes(if c < 0 then c + 0x10000 else c)
      + WordBytes(info.residualCapacityMah / 10)
      + WordBytes(info.nominalCapacityMah / 10)
      + WordBytes(info.cycleLife)
      + [0, 0, 0, 0, 0, 0]
      + WordBytes(info.protectionStatus)
      + [info.softwareVersion, info.rsocPercent, info.fetStatus, info.cellCount, info.ntcCount]
      + EncodeWords(info.temperaturesRaw)
  }

  lemma EncodeBasicInfoLayout(info: BasicInfo)
    requires Encodable(info)
    ensures var p := EncodeBasicInfo(info);
      && |p| == BASIC_INFO_PREFIX + 2 * info.ntcCount
      && p[BASIC_INFO_PREFIX..] == EncodeWords(info.temperaturesRaw)
      && U16(p[0], p[1]) * 10 == info.totalVoltageMv
      && S16(p[2], p[3]) * 10 == info.currentMa
      && U16(p[4], p[5]) * 10 == info.residualCapacityMah
      && U16(p[6], p[7]) * 10 == info.nominalCapacityMah
      && U16(p[8], p[9]) == info.cycleLife
      && U16(p[16], p[17]) == info.protectionStatus
      && p[18] == info.softwareVersion && p[19] == info.rsocPercent
      && p[20] == info.fetStatus && p[21] == info.cellCount && p[22] == info.ntcCount
  {
    EncodeWordsLength(info.temperaturesRaw);
  }

  /** Round trip: a valid frame carrying an encoded record decodes to it. */
  lemma BasicInfoRoundTrip(r: seq<Byte>, info: BasicInfo)
    requires Encodable(info)
    requires ValidateResponse(r) && Payload(r) == EncodeBasicInfo(info)
    ensures BasicInfoOf(r) == Some(info)
  {
    var p := Payload(r);
    EncodeBasicInfoLayout(info);
    var ts := TemperaturesOf(p, p[22]);
    assert |ts| == |info.temperaturesRaw|;
    forall k | 0 <= k < |ts|
      ensures ts[k] == info.temperaturesRaw[k]
    {
      EncodeWordsAt(info.temperaturesRaw, k);
      assert p[BASIC_INFO_PREFIX + 2 * k] == p[BASIC_INFO_PREFIX..][2 * k];
      assert p[BASIC_INFO_PREFIX + 2 * k + 1] == p[BASIC_INFO_PREFIX..][2 * k + 1];
    }
    assert ts == info.temperaturesRaw;
  }
}
