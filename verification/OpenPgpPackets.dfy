/** What the packet walker decides: packets as RFC 4880 lays them out in a file, and the walk
    over any file. */
module OpenPgpPackets {
  import opened Json
  import opened Bytes
  import opened OpenPgp

  // ---- Packets and where they lie in a file

  datatype LengthForm = OneOctet | TwoOctets | FiveOctets

  /** A partial chunk: its length is a power of two, given by the exponent. */
  datatype Chunk = Chunk(exponent: nat, data: seq<byte>)

  datatype Packet =
    | NewPacket(tag: nat, partials: seq<Chunk>, form: LengthForm, last: seq<byte>)
    | OldPacket(tag: nat, lengthType: nat, body: seq<byte>)
    | Indeterminate(tag: nat, body: seq<byte>)

  /** The length field of `n` octets in the given form lies at `i` and ends at `next`
      (section 4.2.2 of RFC 4880). */
  predicate LengthLies(d: seq<byte>, i: nat, form: LengthForm, n: nat, next: nat) {
    match form
    case OneOctet => next == i + 1 <= |d| && n < 192 && d[i] == n
    case TwoOctets => next == i + 2 <= |d| && 192 <= n <= 8383 && d[i] == 192 + (n - 192) / 256 && d[i + 1] == (n - 192) % 256
    case FiveOctets => next == i + 5 <= |d| && d[i] == 255 && Four(d[i + 1], d[i + 2], d[i + 3], d[i + 4]) == n
  }

  function Two(a: byte, b: byte): nat {
    256 * a + b
  }

  function Four(a: byte, b: byte, c: byte, d: byte): nat {
    16777216 * a + 65536 * b + 256 * c + d
  }

  /** The same for the length types of old headers: one octet, two or four (section 4.2.1). */
  predicate OldLengthLies(d: seq<byte>, i: nat, lengthType: nat, n: nat, next: nat) {
    match lengthType
    case 0 => next == i + 1 <= |d| && d[i] == n
    case 1 => next == i + 2 <= |d| && Two(d[i], d[i + 1]) == n
    case 2 => next == i + 4 <= |d| && Four(d[i], d[i + 1], d[i + 2], d[i + 3]) == n
    case _ => false
  }

  /** The number is one, shifted left so many times. */
  predicate Shifted(n: nat, times: nat) {
    if times == 0 then n == 1 else n % 2 == 0 && Shifted(n / 2, times - 1)
  }

  predicate DataLies(d: seq<byte>, i: nat, data: seq<byte>, end: nat) {
    end == i + |data| <= |d| && forall k :: 0 <= k < |data| ==> d[i + k] == data[k]
  }

  predicate ChunkLies(d: seq<byte>, i: nat, c: Chunk) {
    && i < |d| && c.exponent <= 30 && d[i] == 224 + c.exponent && Shifted(|c.data|, c.exponent)
    && DataLies(d, i + 1, c.data, i + 1 + |c.data|)
  }

  predicate ChunksLie(d: seq<byte>, i: nat, partials: seq<Chunk>, form: LengthForm, last: seq<byte>, end: nat)
    decreases |partials|
  {
    if partials == [] then
      |last| <= end && LengthLies(d, i, form, |last|, end - |last|) && DataLies(d, end - |last|, last, end)
    else
      ChunkLies(d, i, partials[0]) && ChunksLie(d, i + 1 + |partials[0].data|, partials[1..], form, last, end)
  }

  /** The packet lies at `i` and ends at `end`; one of open length reaches the end of the file. */
  predicate PacketLies(d: seq<byte>, i: nat, p: Packet, end: nat) {
    match p
    case NewPacket(tag, partials, form, last) =>
      i < |d| && tag < 64 && d[i] == 192 + tag && ChunksLie(d, i + 1, partials, form, last, end)
    case OldPacket(tag, lengthType, body) =>
      && i < |d| && tag < 16 && d[i] == 128 + 4 * tag + lengthType && |body| <= end
      && OldLengthLies(d, i + 1, lengthType, |body|, end - |body|) && DataLies(d, end - |body|, body, end)
    case Indeterminate(tag, body) =>
      i < |d| && tag < 16 && d[i] == 128 + 4 * tag + 3 && DataLies(d, i + 1, body, end) && end == |d|
  }

  function BodyOf(p: Packet): seq<byte> {
    match p
    case NewPacket(_, partials, _, last) => PartialData(partials) + last
    case OldPacket(_, _, body) => body
    case Indeterminate(_, body) => body
  }

  function PartialData(partials: seq<Chunk>): seq<byte> {
    if partials == [] then [] else partials[0].data + PartialData(partials[1..])
  }

  /** A secret key or secret subkey packet whose body starts with a version of 3 to 6. */
  predicate Secret(p: Packet) {
    (p.tag == 5 || p.tag == 7) && BodyOf(p) != [] && 3 <= BodyOf(p)[0] <= 6
  }

  // ---- The walk past one packet

  lemma {:induction false} Pow2Positive(k: nat)
    ensures Pow2(k) > 0
  {
    if k > 0 { Pow2Positive(k - 1); }
  }

  lemma {:induction false} ShiftedExactly(n: nat, times: nat)
    ensures Shifted(n, times) <==> n == Pow2(times)
  {
    if times > 0 { ShiftedExactly(n / 2, times - 1); }
  }

  lemma OneRead(s: seq<byte>)
    requires |s| == 1
    ensures FromBigEndian(s) == s[0]
  {
    assert s[..0] == [];
  }

  lemma TwoRead(s: seq<byte>)
    requires |s| == 2
    ensures FromBigEndian(s) == Two(s[0], s[1])
  {
    OneRead(s[..1]);
  }

  lemma FourRead(s: seq<byte>)
    requires |s| == 4
    ensures FromBigEndian(s) == Four(s[0], s[1], s[2], s[3])
  {
    assert s[..3][..2] == s[..2];
    TwoRead(s[..2]);
    assert FromBigEndian(s[..3]) == FromBigEndian(s[..2]) * 256 + s[2];
  }

  lemma LengthRead(d: seq<byte>, i: nat, form: LengthForm, n: nat, next: nat)
    requires LengthLies(d, i, form, n, next)
    ensures LengthAt(d, i) == Some(Length(n, false, next))
  {
    if form.FiveOctets? { FourRead(d[i + 1..i + 5]); }
  }

  /** What the walk makes of an old length field is what is written there. */
  lemma OldLengthRead(d: seq<byte>, i: nat, lengthType: nat, n: nat)
    requires lengthType < 3 && i + OldWidth(lengthType) <= |d|
    ensures OldLengthLies(d, i, lengthType, n, i + OldWidth(lengthType)) <==>
            FromBigEndian(d[i..i + OldWidth(lengthType)]) == n
  {
    match lengthType
    case 0 => OneRead(d[i..i + 1]);
    case 1 => TwoRead(d[i..i + 2]);
    case 2 => FourRead(d[i..i + 4]);
  }

  lemma OldLengthEnds(d: seq<byte>, i: nat, lengthType: nat, n: nat, next: nat)
    requires OldLengthLies(d, i, lengthType, n, next)
    ensures lengthType < 3 && OldWidth(lengthType) > 0 && next == i + OldWidth(lengthType) <= |d|
  {
  }

  lemma ChunkRead(d: seq<byte>, i: nat, c: Chunk)
    requires ChunkLies(d, i, c)
    ensures LengthAt(d, i) == Some(Length(|c.data|, true, i + 1)) && |c.data| > 0 && d[i + 1] == c.data[0]
  {
    Pow2Positive(c.exponent);
    ShiftedExactly(|c.data|, c.exponent);
    assert d[i + 1 + 0] == c.data[0];
  }

  lemma {:induction false} ChunksRead(d: seq<byte>, i: nat, partials: seq<Chunk>, form: LengthForm, last: seq<byte>, end: nat)
    requires ChunksLie(d, i, partials, form, last, end)
    ensures SkipChunks(d, i) == Some(end)
    decreases |partials|
  {
    if partials == [] {
      LengthRead(d, i, form, |last|, end - |last|);
    } else {
      ChunkRead(d, i, partials[0]);
      ChunksRead(d, i + 1 + |partials[0].data|, partials[1..], form, last, end);
    }
  }

  /** The walk at a new header with one length field. */
  lemma NewScans(d: seq<byte>, i: nat, n: nat, start: nat)
    requires i < |d| && d[i] >= 192 && LengthAt(d, i + 1) == Some(Length(n, false, start)) && start + n <= |d|
    ensures Scan(d, i) == ((SecretTag(d[i] - 192) && n > 0 && SecretVersion(d[start])) || Scan(d, start + n))
  {
  }

  lemma WholeScans(d: seq<byte>, i: nat, p: Packet, end: nat)
    requires p.NewPacket? && p.partials == [] && PacketLies(d, i, p, end)
    ensures Scan(d, i) == (Secret(p) || Scan(d, end))
  {
    LengthRead(d, i + 1, p.form, |p.last|, end - |p.last|);
    NewScans(d, i, |p.last|, end - |p.last|);
    assert BodyOf(p) == p.last;
    assert p.last != [] ==> d[end - |p.last| + 0] == p.last[0];
  }

  lemma ChunkedBody(p: Packet)
    requires p.NewPacket? && p.partials != [] && p.partials[0].data != []
    ensures BodyOf(p) != [] && BodyOf(p)[0] == p.partials[0].data[0]
  {
  }

  lemma ChunkedScans(d: seq<byte>, i: nat, p: Packet, end: nat)
    requires p.NewPacket? && p.partials != [] && PacketLies(d, i, p, end)
    ensures Scan(d, i) == (Secret(p) || Scan(d, end))
  {
    var c := p.partials[0];
    ChunkRead(d, i + 1, c);
    ChunkedBody(p);
    ChunksRead(d, i + 2 + |c.data|, p.partials[1..], p.form, p.last, end);
  }

  lemma OldHeader(tag: nat, lengthType: nat)
    requires tag < 16 && lengthType < 4
    ensures var h := 128 + 4 * tag + lengthType;
            h < 192 && h % 4 == lengthType && (h / 4) % 16 == tag && OldWidth(h) == OldWidth(lengthType)
  {
  }

  lemma OldScans(d: seq<byte>, i: nat, p: Packet, end: nat)
    requires p.OldPacket? && PacketLies(d, i, p, end)
    ensures Scan(d, i) == (Secret(p) || Scan(d, end))
  {
    OldLengthEnds(d, i + 1, p.lengthType, |p.body|, end - |p.body|);
    OldLengthRead(d, i + 1, p.lengthType, |p.body|);
    OldHeader(p.tag, p.lengthType);
    assert p.body != [] ==> d[end - |p.body| + 0] == p.body[0];
  }

  lemma IndeterminateScans(d: seq<byte>, i: nat, p: Packet, end: nat)
    requires p.Indeterminate? && PacketLies(d, i, p, end)
    ensures Scan(d, i) == Secret(p)
  {
    OldHeader(p.tag, 3);
    assert p.body != [] ==> d[i + 1 + 0] == p.body[0];
  }

  /** One packet decides, or hands over to what follows it. */
  lemma PacketScans(d: seq<byte>, i: nat, p: Packet, end: nat)
    requires PacketLies(d, i, p, end)
    ensures Scan(d, i) == (Secret(p) || Scan(d, end))
  {
    if p.Indeterminate? { IndeterminateScans(d, i, p, end); }
    else if p.OldPacket? { OldScans(d, i, p, end); }
    else if p.partials == [] { WholeScans(d, i, p, end); }
    else { ChunkedScans(d, i, p, end); }
  }

  // ---- Any file

  /** What the walk needs of a secret key packet at `i`: all of it, or its first chunk. */
  predicate SecretLies(d: seq<byte>, i: nat, p: Packet, end: nat) {
    && Secret(p)
    && if p.NewPacket? && p.partials != []
       then i < |d| && p.tag < 64 && d[i] == 192 + p.tag && ChunkLies(d, i + 1, p.partials[0])
       else PacketLies(d, i, p, end)
  }

  datatype Placed = Placed(packet: Packet, end: nat)

  /** From `i` on the file holds complete packets and then a secret key packet. */
  predicate Exposes(d: seq<byte>, i: nat, ps: seq<Placed>, last: Placed)
    decreases |ps|
  {
    if ps == [] then SecretLies(d, i, last.packet, last.end)
    else PacketLies(d, i, ps[0].packet, ps[0].end) && Exposes(d, ps[0].end, ps[1..], last)
  }

  lemma SecretDecides(d: seq<byte>, i: nat, p: Packet, end: nat)
    requires SecretLies(d, i, p, end)
    ensures Scan(d, i)
  {
    if p.NewPacket? && p.partials != [] {
      ChunkRead(d, i + 1, p.partials[0]);
      ChunkedBody(p);
    } else {
      PacketScans(d, i, p, end);
    }
  }

  lemma {:induction false} ExposedScans(d: seq<byte>, i: nat, ps: seq<Placed>, last: Placed)
    requires Exposes(d, i, ps, last)
    ensures Scan(d, i)
    decreases |ps|
  {
    if ps == [] {
      SecretDecides(d, i, last.packet, last.end);
    } else {
      PacketScans(d, i, ps[0].packet, ps[0].end);
      ExposedScans(d, ps[0].end, ps[1..], last);
    }
  }

  lemma LengthFound(d: seq<byte>, i: nat) returns (form: LengthForm)
    requires LengthAt(d, i).Some? && !LengthAt(d, i).value.partial
    ensures LengthLies(d, i, form, LengthAt(d, i).value.length, LengthAt(d, i).value.next)
  {
    if d[i] < 192 {
      form := OneOctet;
    } else if d[i] < 224 {
      form := TwoOctets;
      TwoOctetParts(d[i] as int - 192, d[i + 1]);
    } else {
      form := FiveOctets;
      FourRead(d[i + 1..i + 5]);
    }
  }

  lemma TwoOctetParts(high: nat, low: nat)
    requires high < 32 && low < 256
    ensures (high * 256 + low) / 256 == high && (high * 256 + low) % 256 == low
  {
  }

  lemma DataFound(d: seq<byte>, i: nat, end: nat)
    requires i <= end <= |d|
    ensures DataLies(d, i, d[i..end], end)
  {
  }

  lemma ChunkFound(d: seq<byte>, i: nat) returns (c: Chunk)
    requires LengthAt(d, i).Some? && LengthAt(d, i).value.partial
    requires LengthAt(d, i).value.next + LengthAt(d, i).value.length <= |d|
    ensures ChunkLies(d, i, c) && LengthAt(d, i).value == Length(|c.data|, true, i + 1)
  {
    var l := LengthAt(d, i).value;
    c := Chunk(d[i] - 224, d[i + 1..i + 1 + l.length]);
    ShiftedExactly(|c.data|, c.exponent);
    DataFound(d, i + 1, i + 1 + l.length);
  }

  lemma {:induction false} ChunksFound(d: seq<byte>, i: nat) returns (partials: seq<Chunk>, form: LengthForm, last: seq<byte>)
    requires SkipChunks(d, i).Some?
    ensures ChunksLie(d, i, partials, form, last, SkipChunks(d, i).value)
    ensures partials == [] <==> !LengthAt(d, i).value.partial
    decreases |d| - i
  {
    var l := LengthAt(d, i).value;
    if l.partial {
      var c := ChunkFound(d, i);
      var rest;
      rest, form, last := ChunksFound(d, l.next + l.length);
      partials := [c] + rest;
      assert partials[1..] == rest;
    } else {
      form := LengthFound(d, i);
      partials, last := [], d[l.next..l.next + l.length];
      DataFound(d, l.next, l.next + l.length);
    }
  }

  lemma NewFound(d: seq<byte>, i: nat) returns (p: Packet)
    requires i < |d| && d[i] >= 192 && SkipChunks(d, i + 1).Some?
    ensures p.NewPacket? && PacketLies(d, i, p, SkipChunks(d, i + 1).value)
    ensures p.partials == [] <==> !LengthAt(d, i + 1).value.partial
  {
    var partials, form, last := ChunksFound(d, i + 1);
    p := NewPacket(d[i] - 192, partials, form, last);
  }

  lemma OldFound(d: seq<byte>, i: nat, end: nat) returns (p: Packet)
    requires i < |d| && 128 <= d[i] < 192 && OldWidth(d[i]) > 0 && i + 1 + OldWidth(d[i]) <= |d|
    requires end == i + 1 + OldWidth(d[i]) + FromBigEndian(d[i + 1..i + 1 + OldWidth(d[i])]) <= |d|
    ensures p.OldPacket? && p.tag == (d[i] / 4) % 16 && PacketLies(d, i, p, end)
    ensures p.body == d[i + 1 + OldWidth(d[i])..end]
  {
    var next := i + 1 + OldWidth(d[i]);
    p := OldPacket((d[i] / 4) % 16, d[i] % 4, d[next..end]);
    assert d[i] == 128 + 4 * p.tag + p.lengthType;
    OldHeader(p.tag, p.lengthType);
    OldLengthRead(d, i + 1, p.lengthType, end - next);
    DataFound(d, next, end);
  }

  /** The header at `i` announces a secret key packet whose first chunk is all there. */
  predicate NewSecretHeader(d: seq<byte>, i: nat) {
    && i < |d| && d[i] >= 192 && SecretTag(d[i] - 192) && LengthAt(d, i + 1).Some?
    && var l := LengthAt(d, i + 1).value; l.next + l.length <= |d| && l.length > 0 && SecretVersion(d[l.next])
  }

  lemma ChunkedStop(d: seq<byte>, i: nat) returns (p: Packet)
    requires NewSecretHeader(d, i) && LengthAt(d, i + 1).value.partial
    ensures SecretLies(d, i, p, |d|)
  {
    var c := ChunkFound(d, i + 1);
    p := NewPacket(d[i] - 192, [c], OneOctet, []);
    ChunkRead(d, i + 1, c);
    ChunkedBody(p);
  }

  lemma WholeStop(d: seq<byte>, i: nat, end: nat) returns (p: Packet)
    requires NewSecretHeader(d, i) && !LengthAt(d, i + 1).value.partial
    requires end == LengthAt(d, i + 1).value.next + LengthAt(d, i + 1).value.length
    ensures SecretLies(d, i, p, end)
  {
    var form := LengthFound(d, i + 1);
    var start := LengthAt(d, i + 1).value.next;
    p := NewPacket(d[i] - 192, [], form, d[start..end]);
    DataFound(d, start, end);
    assert BodyOf(p) == p.last && p.last[0] == d[start];
  }

  lemma NewStop(d: seq<byte>, i: nat) returns (p: Packet, end: nat)
    requires NewSecretHeader(d, i)
    ensures SecretLies(d, i, p, end)
  {
    var l := LengthAt(d, i + 1).value;
    end := if l.partial then |d| else l.next + l.length;
    if l.partial { p := ChunkedStop(d, i); } else { p := WholeStop(d, i, end); }
  }

  lemma OldStop(d: seq<byte>, i: nat, end: nat) returns (p: Packet)
    requires i < |d| && 128 <= d[i] < 192 && i + 1 + OldWidth(d[i]) < end <= |d|
    requires SecretTag((d[i] / 4) % 16) && SecretVersion(d[i + 1 + OldWidth(d[i])])
    requires if OldWidth(d[i]) == 0 then end == |d|
             else end == i + 1 + OldWidth(d[i]) + FromBigEndian(d[i + 1..i + 1 + OldWidth(d[i])])
    ensures SecretLies(d, i, p, end)
  {
    if OldWidth(d[i]) > 0 {
      p := OldFound(d, i, end);
    } else {
      p := Indeterminate((d[i] / 4) % 16, d[i + 1..end]);
      assert d[i] == 128 + 4 * p.tag + 3;
      DataFound(d, i + 1, end);
    }
  }

  /** One round of the walk that ends in yes: the packet it stops at, or one it passes. */
  lemma RoundFound(d: seq<byte>, i: nat) returns (stop: bool, q: Placed)
    requires Scan(d, i)
    ensures i < |d|
    ensures stop ==> SecretLies(d, i, q.packet, q.end)
    ensures !stop ==> PacketLies(d, i, q.packet, q.end) && i < q.end <= |d| && Scan(d, q.end)
  {
    if d[i] >= 192 {
      var l := LengthAt(d, i + 1).value;
      stop := SecretTag(d[i] - 192) && l.length > 0 && SecretVersion(d[l.next]);
      if stop {
        var p, end := NewStop(d, i);
        q := Placed(p, end);
      } else {
        var p := NewFound(d, i);
        q := Placed(p, SkipChunks(d, i + 1).value);
      }
    } else {
      stop, q := OldRoundFound(d, i);
    }
  }

  lemma OldRoundFound(d: seq<byte>, i: nat) returns (stop: bool, q: Placed)
    requires i < |d| && 128 <= d[i] < 192 && ScanOld(d, i)
    ensures stop ==> SecretLies(d, i, q.packet, q.end)
    ensures !stop ==> PacketLies(d, i, q.packet, q.end) && i < q.end <= |d| && Scan(d, q.end)
  {
    var next := i + 1 + OldWidth(d[i]);
    var end := if OldWidth(d[i]) == 0 then |d| else next + FromBigEndian(d[i + 1..next]);
    stop := SecretTag((d[i] / 4) % 16) && next < end && SecretVersion(d[next]);
    if stop {
      var p := OldStop(d, i, end);
      q := Placed(p, end);
    } else {
      var p := OldFound(d, i, end);
      q := Placed(p, end);
    }
  }

  lemma {:induction false} ScanExposes(d: seq<byte>, i: nat) returns (ps: seq<Placed>, last: Placed)
    requires Scan(d, i)
    ensures Exposes(d, i, ps, last)
    decreases |d| - i
  {
    var stop, q := RoundFound(d, i);
    if stop {
      ps, last := [], q;
    } else {
      var rest;
      rest, last := ScanExposes(d, q.end);
      ps := [q] + rest;
      assert ps[1..] == rest;
    }
  }

  ghost predicate Exposed(d: seq<byte>) {
    exists ps, last :: Exposes(d, 0, ps, last)
  }

  lemma ExposedScan(d: seq<byte>)
    requires Exposed(d)
    ensures Scan(d, 0)
  {
    var ps, last :| Exposes(d, 0, ps, last);
    ExposedScans(d, 0, ps, last);
  }

  lemma ScanExposed(d: seq<byte>)
    requires Scan(d, 0)
    ensures Exposed(d)
  {
    var ps, last := ScanExposes(d, 0);
  }

  /** On every file, whatever its bytes: the walk answers yes exactly when the file starts with
      complete packets followed by a secret key packet, or by the first chunk of one. */
  lemma WalkerExactOnFiles(d: seq<byte>)
    ensures Scan(d, 0) <==> Exposed(d)
  {
    if Scan(d, 0) { ScanExposed(d); }
    if Exposed(d) { ExposedScan(d); }
  }

  // ---- Writing packets

  predicate Fits(form: LengthForm, n: nat) {
    match form
    case OneOctet => n < 192
    case TwoOctets => 192 <= n <= 8383
    case FiveOctets => n < 0x1_0000_0000
  }

  predicate ValidPacket(p: Packet) {
    match p
    case NewPacket(tag, partials, form, last) => tag < 64 && Fits(form, |last|) && ValidChunks(partials)
    case OldPacket(tag, lengthType, body) => tag < 16 && OldFits(lengthType, |body|)
    case Indeterminate(tag, body) => tag < 16
  }

  predicate OldFits(lengthType: nat, n: nat) {
    match lengthType
    case 0 => n < 0x100
    case 1 => n < 0x1_0000
    case 2 => n < 0x1_0000_0000
    case _ => false
  }

  predicate ValidChunks(partials: seq<Chunk>) {
    forall i :: 0 <= i < |partials| ==> partials[i].exponent <= 30 && Shifted(|partials[i].data|, partials[i].exponent)
  }

  function EncodeLength(form: LengthForm, n: nat): seq<byte>
    requires Fits(form, n)
  {
    match form
    case OneOctet => [n]
    case TwoOctets => [192 + (n - 192) / 256, (n - 192) % 256]
    case FiveOctets => [255] + BigEndian(n, 4)
  }

  function OldOctets(lengthType: nat): nat {
    match lengthType
    case 0 => 1
    case 1 => 2
    case _ => 4
  }

  function EncodeChunks(partials: seq<Chunk>, form: LengthForm, last: seq<byte>): seq<byte>
    requires ValidChunks(partials) && Fits(form, |last|)
  {
    if partials == [] then EncodeLength(form, |last|) + last
    else
      var first: seq<byte> := [224 + partials[0].exponent];
      first + (partials[0].data + EncodeChunks(partials[1..], form, last))
  }

  function Encode(p: Packet): seq<byte>
    requires ValidPacket(p)
  {
    match p
    case NewPacket(tag, partials, form, last) => [192 + tag] + EncodeChunks(partials, form, last)
    case OldPacket(tag, lengthType, body) => [128 + 4 * tag + lengthType] + (BigEndian(|body|, OldOctets(lengthType)) + body)
    case Indeterminate(tag, body) => [128 + 4 * tag + 3] + body
  }

  /** Each packet is valid, and only the last one may be of open length. */
  predicate ValidPackets(ps: seq<Packet>) {
    ps != [] ==> ValidPacket(ps[0]) && (ps[0].Indeterminate? ==> |ps| == 1) && ValidPackets(ps[1..])
  }

  function EncodeAll(ps: seq<Packet>): seq<byte>
    requires ValidPackets(ps)
  {
    if ps == [] then [] else Encode(ps[0]) + EncodeAll(ps[1..])
  }

  ghost predicate AnySecret(ps: seq<Packet>) {
    exists k :: 0 <= k < |ps| && Secret(ps[k])
  }

  lemma AnySecretFirst(ps: seq<Packet>)
    requires ps != []
    ensures AnySecret(ps) <==> Secret(ps[0]) || AnySecret(ps[1..])
  {
    if k :| 0 <= k < |ps| && Secret(ps[k]) {
      assert k > 0 ==> ps[1..][k - 1] == ps[k];
    }
    if k :| 0 <= k < |ps[1..]| && Secret(ps[1..][k]) {
      assert ps[k + 1] == ps[1..][k];
    }
  }

  lemma DataParts(d: seq<byte>, i: nat, a: seq<byte>, b: seq<byte>, end: nat)
    requires DataLies(d, i, a + b, end)
    ensures DataLies(d, i, a, i + |a|) && DataLies(d, i + |a|, b, end)
  {
    assert forall k :: 0 <= k < |a| ==> (a + b)[k] == a[k];
    forall k | 0 <= k < |b| ensures d[i + |a| + k] == b[k] {
      assert (a + b)[|a| + k] == b[k] && d[i + (|a| + k)] == (a + b)[|a| + k];
    }
  }

  lemma DataHead(d: seq<byte>, i: nat, head: byte, rest: seq<byte>, end: nat)
    requires DataLies(d, i, [head] + rest, end)
    ensures i < |d| && d[i] == head && DataLies(d, i + 1, rest, end)
  {
    DataParts(d, i, [head], rest, end);
    assert d[i + 0] == [head][0];
  }

  lemma Pow256Values()
    ensures Pow256(1) == 0x100 && Pow256(2) == 0x1_0000 && Pow256(4) == 0x1_0000_0000
  {
    assert Pow256(3) == 256 * Pow256(2);
  }

  lemma NumberWritten(d: seq<byte>, i: nat, n: nat, width: nat)
    requires n < Pow256(width) && DataLies(d, i, BigEndian(n, width), i + width)
    ensures FromBigEndian(d[i..i + width]) == n
  {
    assert d[i..i + width] == BigEndian(n, width);
    FromBigEndianOfBigEndian(n, width);
  }

  lemma LengthWritten(d: seq<byte>, i: nat, form: LengthForm, n: nat)
    requires Fits(form, n) && DataLies(d, i, EncodeLength(form, n), i + |EncodeLength(form, n)|)
    ensures LengthLies(d, i, form, n, i + |EncodeLength(form, n)|)
  {
    var e := EncodeLength(form, n);
    Pow256Values();
    assert d[i + 0] == e[0];
    match form {
      case OneOctet =>
      case TwoOctets => assert d[i + 1] == e[1];
      case FiveOctets =>
        DataParts(d, i, [255], BigEndian(n, 4), i + 5);
        NumberWritten(d, i + 1, n, 4);
        FourRead(d[i + 1..i + 5]);
    }
  }

  lemma {:induction false} ChunksWritten(d: seq<byte>, i: nat, partials: seq<Chunk>, form: LengthForm, last: seq<byte>, end: nat)
    requires ValidChunks(partials) && Fits(form, |last|) && DataLies(d, i, EncodeChunks(partials, form, last), end)
    ensures ChunksLie(d, i, partials, form, last, end)
    decreases |partials|
  {
    if partials == [] {
      DataParts(d, i, EncodeLength(form, |last|), last, end);
      LengthWritten(d, i, form, |last|);
    } else {
      var c, rest := partials[0], EncodeChunks(partials[1..], form, last);
      DataHead(d, i, 224 + c.exponent, c.data + rest, end);
      DataParts(d, i + 1, c.data, rest, end);
      ChunksWritten(d, i + 1 + |c.data|, partials[1..], form, last, end);
    }
  }

  lemma OldLengthWritten(d: seq<byte>, i: nat, lengthType: nat, n: nat, width: nat)
    requires OldFits(lengthType, n) && width == OldOctets(lengthType) && DataLies(d, i, BigEndian(n, width), i + width)
    ensures OldLengthLies(d, i, lengthType, n, i + width)
  {
    Pow256Values();
    NumberWritten(d, i, n, width);
    match lengthType {
      case 0 => OneRead(d[i..i + 1]);
      case 1 => TwoRead(d[i..i + 2]);
      case 2 => FourRead(d[i..i + 4]);
    }
  }

  lemma OldWritten(d: seq<byte>, i: nat, p: Packet, end: nat)
    requires p.OldPacket? && ValidPacket(p) && DataLies(d, i, Encode(p), end)
    ensures PacketLies(d, i, p, end)
  {
    var width := OldOctets(p.lengthType);
    var size := BigEndian(|p.body|, width);
    DataHead(d, i, 128 + 4 * p.tag + p.lengthType, size + p.body, end);
    DataParts(d, i + 1, size, p.body, end);
    OldLengthWritten(d, i + 1, p.lengthType, |p.body|, width);
  }

  /** The bytes of a packet are the packet. */
  lemma PacketWritten(d: seq<byte>, i: nat, p: Packet, end: nat)
    requires ValidPacket(p) && DataLies(d, i, Encode(p), end) && (p.Indeterminate? ==> end == |d|)
    ensures PacketLies(d, i, p, end)
  {
    match p {
      case NewPacket(tag, partials, form, last) =>
        DataHead(d, i, 192 + tag, EncodeChunks(partials, form, last), end);
        ChunksWritten(d, i + 1, partials, form, last, end);
      case OldPacket(_, _, _) =>
        OldWritten(d, i, p, end);
      case Indeterminate(tag, body) =>
        DataHead(d, i, 128 + 4 * tag + 3, body, end);
    }
  }

  /** The packets lie one behind the other, to the end of the data. */
  ghost predicate PacketsLie(d: seq<byte>, i: nat, ps: seq<Packet>)
    decreases |ps|
  {
    if ps == [] then i == |d| else exists end: nat :: PacketLies(d, i, ps[0], end) && PacketsLie(d, end, ps[1..])
  }

  lemma DataFirst(d: seq<byte>, i: nat, bytes: seq<byte>, rest: seq<byte>)
    requires i <= |d| && d[i..] == bytes + rest
    ensures i + |bytes| <= |d| && d[i + |bytes|..] == rest && DataLies(d, i, bytes, i + |bytes|)
  {
    assert d[i + |bytes|..] == d[i..][|bytes|..];
    forall k | 0 <= k < |bytes| ensures d[i + k] == bytes[k] { assert d[i + k] == d[i..][k]; }
  }

  lemma EncodeFirst(ps: seq<Packet>) returns (bytes: seq<byte>, rest: seq<byte>)
    requires ValidPackets(ps) && ps != []
    ensures bytes == Encode(ps[0]) && rest == EncodeAll(ps[1..]) && EncodeAll(ps) == bytes + rest
    ensures ps[0].Indeterminate? ==> rest == []
  {
    bytes, rest := Encode(ps[0]), EncodeAll(ps[1..]);
  }

  lemma FirstLies(d: seq<byte>, i: nat, ps: seq<Packet>, end: nat)
    requires ps != [] && PacketLies(d, i, ps[0], end) && PacketsLie(d, end, ps[1..])
    ensures PacketsLie(d, i, ps)
  {
  }

  lemma {:induction false} PacketsWritten(d: seq<byte>, i: nat, ps: seq<Packet>)
    requires ValidPackets(ps) && i <= |d| && d[i..] == EncodeAll(ps)
    ensures PacketsLie(d, i, ps)
    decreases |ps|
  {
    if ps != [] {
      var bytes, rest := EncodeFirst(ps);
      DataFirst(d, i, bytes, rest);
      PacketsWritten(d, i + |bytes|, ps[1..]);
      PacketWritten(d, i, ps[0], i + |bytes|);
      FirstLies(d, i, ps, i + |bytes|);
    }
  }

  lemma {:induction false} PacketsScan(d: seq<byte>, i: nat, ps: seq<Packet>)
    requires PacketsLie(d, i, ps)
    ensures Scan(d, i) <==> AnySecret(ps)
    decreases |ps|
  {
    if ps != [] {
      var end: nat :| PacketLies(d, i, ps[0], end) && PacketsLie(d, end, ps[1..]);
      PacketScans(d, i, ps[0], end);
      PacketsScan(d, end, ps[1..]);
      AnySecretFirst(ps);
    }
  }

  /** Old and new headers, every legal form of length, partial chunks, open length at the end:
      the walk over the encoded list answers whether it holds a secret key packet. */
  lemma WalkerExactOnPackets(ps: seq<Packet>)
    requires ValidPackets(ps)
    ensures Scan(EncodeAll(ps), 0) <==> AnySecret(ps)
  {
    var d := EncodeAll(ps);
    assert d[0..] == d;
    PacketsWritten(d, 0, ps);
    PacketsScan(d, 0, ps);
  }
}
