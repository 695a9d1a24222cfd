/** The OpenPGP packet walker of supply-chain/check-material.py, against packet lists encoded as
    sections 4.2.1 and 4.2.2 of RFC 4880 say. */
module OpenPgp {
  import opened Json
  import opened Bytes

  // ---- The walk over arbitrary bytes

  function Pow2(k: nat): nat {
    if k == 0 then 1 else 2 * Pow2(k - 1)
  }

  /** A length field: the length, whether more chunks follow, and where the chunk starts. */
  datatype Length = Length(length: nat, partial: bool, next: nat)

  /** A new-format length field at `i`, if the file holds all of it. */
  function LengthAt(d: seq<byte>, i: nat): (r: Option<Length>)
    ensures r.Some? ==> i < r.value.next <= |d|
  {
    if i >= |d| then None
    else if d[i] < 192 then Some(Length(d[i], false, i + 1))
    else if d[i] < 224 then
      if i + 1 < |d| then Some(Length((d[i] as int - 192) * 256 + d[i + 1] + 192, false, i + 2)) else None
    else if d[i] == 255 then
      if i + 5 <= |d| then Some(Length(FromBigEndian(d[i + 1..i + 5]), false, i + 5)) else None
    else Some(Length(Pow2(d[i] % 32), true, i + 1))
  }

  /** The end of the chunks that follow a partial one. */
  function SkipChunks(d: seq<byte>, i: nat): (r: Option<nat>)
    ensures r.Some? ==> i < r.value <= |d|
    decreases |d| - i
  {
    match LengthAt(d, i)
    case None => None
    case Some(l) =>
      if l.next + l.length > |d| then None
      else if l.partial then SkipChunks(d, l.next + l.length)
      else Some(l.next + l.length)
  }

  predicate SecretTag(tag: nat) {
    tag == 5 || tag == 7
  }

  predicate SecretVersion(b: byte) {
    3 <= b <= 6
  }

  /** The verdict of the walk from position `i` on. */
  function Scan(d: seq<byte>, i: nat): bool
    decreases |d| - i
  {
    if i >= |d| || d[i] < 128 then false
    else if d[i] >= 192 then ScanNew(d, i)
    else ScanOld(d, i)
  }

  function ScanNew(d: seq<byte>, i: nat): bool
    requires i < |d| && d[i] >= 192
    decreases |d| - i, 0
  {
    match LengthAt(d, i + 1)
    case None => false
    case Some(l) =>
      var end := l.next + l.length;
      if end > |d| then false
      else if SecretTag(d[i] - 192) && l.length > 0 && SecretVersion(d[l.next]) then true
      else if !l.partial then Scan(d, end)
      else
        match SkipChunks(d, end)
        case None => false
        case Some(e) => Scan(d, e)
  }

  /** The size of an old-format length field; type 3 has none. */
  function OldWidth(header: byte): nat {
    match header % 4
    case 0 => 1
    case 1 => 2
    case 2 => 4
    case _ => 0
  }

  function ScanOld(d: seq<byte>, i: nat): bool
    requires i < |d| && 128 <= d[i] < 192
    decreases |d| - i, 0
  {
    var width := OldWidth(d[i]);
    var next := i + 1 + width;
    if next > |d| then false
    else
      var length := if width == 0 then |d| - next else FromBigEndian(d[i + 1..next]);
      if next + length > |d| then false
      else if SecretTag((d[i] / 4) % 16) && length > 0 && SecretVersion(d[next]) then true
      else if width == 0 then false
      else Scan(d, next + length)
  }

  // ---- The loops of the source

  method ReadLength(source: Source) returns (r: Option<(nat, bool)>)
    requires source.pos <= |source.data|
    modifies source
    ensures old(source.pos) <= source.pos <= |source.data|
    ensures match LengthAt(source.data, old(source.pos))
            case None => r == None
            case Some(l) => r == Some((l.length, l.partial)) && source.pos == l.next
  {
    var encoded := source.Read(1);
    if |encoded| != 1 { return None; }
    var first := encoded[0];
    if first < 192 { return Some((first, false)); }
    if first < 224 {
      var second := source.Read(1);
      if |second| != 1 { return None; }
      return Some(((first as int - 192) * 256 + second[0] + 192, false));
    }
    if first == 255 {
      var length := source.Read(4);
      if |length| != 4 { return None; }
      return Some((FromBigEndian(length), false));
    }
    return Some((Pow2(first % 32), true));
  }

  /** What one round of the outer loop decides. */
  datatype Round = Stop(found: bool) | Continue

  /** A round has read the header byte at `start`; what it did is what the walk says. */
  ghost predicate Agrees(d: seq<byte>, start: nat, pos: nat, round: Round) {
    && start < pos <= |d|
    && match round
       case Stop(found) => Scan(d, start) == found
       case Continue => Scan(d, start) == Scan(d, pos)
  }

  /** The body of the loop for a packet with a new-format header. */
  method NewPacketRound(source: Source, header: byte) returns (round: Round)
    requires 0 < source.pos <= |source.data| && header == source.data[source.pos - 1] >= 192
    modifies source
    ensures Agrees(source.data, old(source.pos) - 1, source.pos, round)
  {
    var d := source.data;
    var encodedLength := ReadLength(source);
    if encodedLength.None? { return Stop(false); }
    var (bodyLength, partial) := encodedLength.value;
    var bodyOffset := source.pos;
    if bodyOffset + bodyLength > |d| { return Stop(false); }
    if SecretTag(header - 192) && bodyLength > 0 {
      var version := source.Read(1);
      if |version| == 1 && SecretVersion(version[0]) { return Stop(true); }
      source.Seek(bodyOffset);
    }
    source.Seek(bodyOffset + bodyLength);
    if partial {
      var ok := SkipRound(source);
      if !ok { return Stop(false); }
    }
    return Continue;
  }

  /** The inner loop, over the chunks that follow a partial one. */
  method SkipRound(source: Source) returns (ok: bool)
    requires source.pos <= |source.data|
    modifies source
    ensures source.pos <= |source.data| && source.pos >= old(source.pos)
    ensures SkipChunks(source.data, old(source.pos)) == if ok then Some(source.pos) else None
  {
    var d, partial := source.data, true;
    ghost var end := SkipChunks(d, source.pos);
    while partial
      invariant old(source.pos) <= source.pos <= |d|
      invariant end == if partial then SkipChunks(d, source.pos) else Some(source.pos)
      decreases |d| - source.pos, partial
    {
      var encodedLength := ReadLength(source);
      if encodedLength.None? { return false; }
      var bodyLength := encodedLength.value.0;
      partial := encodedLength.value.1;
      if source.pos + bodyLength > |d| { return false; }
      source.Seek(source.pos + bodyLength);
    }
    return true;
  }

  /** The body of the loop for a packet with an old-format header. */
  method OldPacketRound(source: Source, header: byte) returns (round: Round)
    requires 0 < source.pos <= |source.data| && header == source.data[source.pos - 1] && 128 <= header < 192
    modifies source
    ensures Agrees(source.data, old(source.pos) - 1, source.pos, round)
  {
    var d, width := source.data, OldWidth(header);
    var bodyLength;
    if width == 0 {
      bodyLength := |d| - source.pos;
    } else {
      var encodedLength := source.Read(width);
      if |encodedLength| != width { return Stop(false); }
      bodyLength := FromBigEndian(encodedLength);
    }
    var bodyOffset := source.pos;
    if bodyOffset + bodyLength > |d| { return Stop(false); }
    if SecretTag((header / 4) % 16) && bodyLength > 0 {
      var version := source.Read(1);
      if |version| == 1 && SecretVersion(version[0]) { return Stop(true); }
      source.Seek(bodyOffset);
    }
    source.Seek(bodyOffset + bodyLength);
    if width == 0 { return Stop(false); }
    return Continue;
  }

  /** `contains_openpgp_secret_key`. The cursor moves forward in every round and never passes the
      end of the file; the loops terminate on every input. */
  method ContainsSecretKey(source: Source) returns (found: bool)
    requires source.pos == 0
    modifies source
    ensures found == Scan(source.data, 0)
    ensures source.pos <= |source.data|
  {
    var d := source.data;
    while source.pos < |d|
      invariant source.pos <= |d| && Scan(d, 0) == Scan(d, source.pos)
      decreases |d| - source.pos
    {
      var encodedTag := source.Read(1);
      if encodedTag[0] < 128 { return false; }
      var round;
      if encodedTag[0] >= 192 {
        round := NewPacketRound(source, encodedTag[0]);
      } else {
        round := OldPacketRound(source, encodedTag[0]);
      }
      if round.Stop? { return round.found; }
    }
    return false;
  }
}
