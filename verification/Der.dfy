/**
 Tag-length-value elements of distinguished encoding rules, read out of a file.
 */
module Der {
  import opened Json
  import opened Bytes

  datatype Element = Element(tag: byte, start: nat, end: nat)

  // The length octets after the tag at `offset` say `length`, and the value starts at `start`.
  ghost predicate LengthLies(d: seq<byte>, offset: nat, length: nat, start: nat) {
    offset + 2 <= start <= |d|
    && if d[offset + 1] < 128 then start == offset + 2 && length == d[offset + 1]
       else
         var k := start - (offset + 2);
         && d[offset + 1] == 128 + k && 1 <= k <= 8
         && d[offset + 2] != 0 && FromBigEndian(d[offset + 2..start]) == length
  }

  // An element of the file, wholly before `limit`.
  ghost predicate Lies(d: seq<byte>, offset: int, limit: int, e: Element) {
    && 0 <= offset && offset + 2 <= limit && offset + 2 <= e.start <= e.end <= limit
    && e.start <= |d| && d[offset] == e.tag && LengthLies(d, offset, e.end - e.start, e.start)
  }

  method ReadTlv(source: Source, offset: int, limit: int) returns (r: Option<Element>)
    requires source.pos <= |source.data|
    modifies source
    ensures source.pos <= |source.data|
    ensures r.Some? ==> Lies(source.data, offset, limit, r.value)
    ensures r.None? ==> forall e :: !Lies(source.data, offset, limit, e)
  {
    if offset < 0 || offset + 2 > limit { return None; }
    if offset + 2 > |source.data| { return None; }  // too few bytes to read
    source.Seek(offset);
    var header := source.Read(2);
    var tag, first := header[0], header[1];
    var start, length := offset + 2, first as int;
    if first >= 128 {
      var count := first - 128;
      if count == 0 || count > 8 || offset + 2 + count > limit { return None; }
      var encoded := source.Read(count);
      if |encoded| != count || encoded[0] == 0 { return None; }
      start := offset + 2 + count;
      length := FromBigEndian(encoded);
    }
    var end := start + length;
    if end > limit { return None; }
    r := Some(Element(tag, start, end));
  }

  // ----- Every encoded element is found where it lies -----

  // The fewest bytes that hold a number.
  function Width(n: nat): nat {
    if n < 256 then 1 else 1 + Width(n / 256)
  }

  function EncodeLength(n: nat): seq<byte>
    requires n < 128 || Width(n) <= 8
  {
    if n < 128 then [n] else [128 + Width(n)] + BigEndian(n, Width(n))
  }

  lemma {:induction false} WidthFits(n: nat)
    requires n > 0
    ensures n < Pow256(Width(n)) && BigEndian(n, Width(n))[0] != 0
  {
    var s := BigEndian(n, Width(n));
    if n >= 256 {
      WidthFits(n / 256);
      assert s == BigEndian(n / 256, Width(n) - 1) + [n % 256];
    } else {
      assert s == BigEndian(0, 0) + [n % 256];
      assert Pow256(1) == 256 * Pow256(0);
    }
  }

  lemma LongLength(n: nat)
    requires n > 0
    ensures var s := BigEndian(n, Width(n)); s[0] != 0 && FromBigEndian(s) == n
  {
    WidthFits(n);
    FromBigEndianOfBigEndian(n, Width(n));
  }

  lemma LongLengthLies(d: seq<byte>, offset: nat, s: seq<byte>, start: nat)
    requires 1 <= |s| <= 8 && s[0] != 0 && start == offset + 2 + |s| <= |d|
    requires d[offset + 1] == 128 + |s| && d[offset + 2..start] == s
    ensures LengthLies(d, offset, FromBigEndian(s), start)
  {
    assert d[offset + 2] == d[offset + 2..start][0];
  }

  // An element written with its length in the fewest bytes is found, wherever it is
  // in the file and whatever its value.
  lemma EncodedLies(d: seq<byte>, offset: nat, start: nat, end: nat, limit: nat)
    requires offset + 1 < start <= end <= limit && start <= |d|
    requires end - start < 128 || Width(end - start) <= 8
    requires d[offset + 1..start] == EncodeLength(end - start)
    ensures Lies(d, offset, limit, Element(d[offset], start, end))
  {
    var length := EncodeLength(end - start);
    assert d[offset + 1] == d[offset + 1..start][0] == length[0];
    if end - start >= 128 {
      assert d[offset + 2..start] == d[offset + 1..start][1..] == length[1..];
      LongLength(end - start);
      LongLengthLies(d, offset, BigEndian(end - start, Width(end - start)), start);
    }
  }

  // An element ends where it says, so at most one lies at an offset.
  lemma LiesOnce(d: seq<byte>, offset: int, limit: int, e: Element, f: Element)
    requires Lies(d, offset, limit, e) && Lies(d, offset, limit, f)
    ensures e == f
  {
  }
}
