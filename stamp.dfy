/** `decodeStamp`: one `sdns://` DNS stamp to the fields of a DNS-over-HTTPS endpoint.
    The binary layout is the DoH stamp of the DNS Stamps specification:
    `[0x02][8 flag bytes][LP address][VLP hashes][LP hostname][LP path]`, where an LP field is a length
    byte and that many bytes, and a VLP field is a list of segments whose length bytes carry a
    "more segments follow" flag in their high bit. The reader walks the buffer with one cursor and is
    lenient: a field that would run past the end reads as empty. */
module Stamp {
  import opened Wrappers
  import opened Bytes
  import opened Text
  import opened Seqs
  import Base64

  const Prefix: string := "sdns://"
  const DoHProtocol: byte := 0x02
  const FlagBytes: nat := 8
  const DefaultPath: string := "/dns-query"

  /** What `decodeStamp` returns when it returns an object: `{ proto }` for a stamp of another protocol,
      `{ proto: 0x02, addr, host, path }` for a DoH stamp. */
  datatype StampInfo = Other(proto: byte) | DoH(addr: string, host: string, path: string) {
    function Proto(): byte {
      if Other? then proto else DoHProtocol
    }
  }

  // ---------------------------------------------------------------------------
  // The cursor readers, as functions of the buffer and the cursor position

  /** `readLP` at cursor `offset`: the field and the cursor afterwards. */
  function LP(buf: seq<byte>, offset: nat): (r: (seq<byte>, nat))
    requires offset <= |buf|
    ensures offset <= r.1 <= |buf|
    ensures offset < |buf| ==> offset < r.1
    ensures |r.0| <= r.1 - offset && r.0 == buf[r.1 - |r.0|..r.1]
    ensures r.0 != [] ==> offset < |buf| && |r.0| == buf[offset] as int && r.1 == offset + 1 + |r.0|
    ensures offset < |buf| && offset + 1 + buf[offset] as int > |buf| ==> r == ([], offset + 1)
  {
    if offset >= |buf| then ([], offset)
    else
      var len := buf[offset] as int;
      var start := offset + 1;
      if len == 0 then ([], start)
      else if start + len > |buf| then ([], start)
      else (buf[start..start + len], start + len)
  }

  /** `readVLP`'s loop from cursor `offset`, with the segments `acc` already read: the segments read and
      the cursor afterwards. A length byte's high bit (`& 0x80`) says more segments follow, its low seven
      bits (`& 0x7f`) are the segment's length; a zero-length segment is skipped. */
  function VLPFrom(buf: seq<byte>, offset: nat, acc: seq<seq<byte>>): (r: (seq<seq<byte>>, nat))
    requires offset <= |buf|
    ensures offset <= r.1 <= |buf|
    ensures offset < |buf| ==> offset < r.1
    ensures |acc| <= |r.0| && r.0[..|acc|] == acc
    ensures forall k :: |acc| <= k < |r.0| ==> 0 < |r.0[k]| < 0x80
    decreases |buf| - offset
  {
    if offset >= |buf| then (acc, offset)
    else
      var lenByte := buf[offset] as int;
      var more := lenByte >= 0x80;
      var len := if more then lenByte - 0x80 else lenByte;
      var start := offset + 1;
      if len != 0 && start + len > |buf| then (acc, start)
      else
        var acc' := if len != 0 then acc + [buf[start..start + len]] else acc;
        if !more then (acc', start + len)
        else VLPFrom(buf, start + len, acc')
  }

  /** A segment that would run past the end stops `VLPFrom` right after its length byte. */
  lemma VLPFromCut(buf: seq<byte>, at: nat, acc: seq<seq<byte>>)
    requires at < |buf|
    requires var b := buf[at] as int; var len := if b >= 0x80 then b - 0x80 else b;
             len != 0 && at + 1 + len > |buf|
    ensures VLPFrom(buf, at, acc) == (acc, at + 1)
  {
  }

  /** A segment that fits is added to what `VLPFrom` has read; it stops after it unless the high bit of
      its length byte is set. */
  lemma VLPFromStep(buf: seq<byte>, at: nat, acc: seq<seq<byte>>, acc': seq<seq<byte>>, next: nat)
    requires at < |buf|
    requires var b := buf[at] as int; var len := if b >= 0x80 then b - 0x80 else b;
             && next == at + 1 + len <= |buf|
             && acc' == if len != 0 then acc + [buf[at + 1..next]] else acc
    ensures VLPFrom(buf, at, acc) == if buf[at] >= 0x80 then VLPFrom(buf, next, acc') else (acc', next)
  {
  }

  /** `readVLP` at cursor `offset`: the segments read and the cursor afterwards. */
  function VLP(buf: seq<byte>, offset: nat): (r: (seq<seq<byte>>, nat))
    requires offset <= |buf|
    ensures offset <= r.1 <= |buf|
    ensures offset < |buf| ==> offset < r.1
    ensures forall k :: 0 <= k < |r.0| ==> 0 < |r.0[k]| < 0x80
  {
    VLPFrom(buf, offset, [])
  }

  /** The arithmetic in `VLP` is the source's bit masking: `lenByte & 0x80` is non-zero exactly when
      `lenByte >= 0x80`, and `lenByte & 0x7f` is `lenByte` with that bit cleared. */
  lemma LengthByteMasks(b: bv8)
    ensures (b & 0x80 != 0) == (b >= 0x80)
    ensures b & 0x7F == if b >= 0x80 then b - 0x80 else b
  {
  }

  /** The fields of a decoded buffer. */
  function DecodeBuffer(buf: seq<byte>): (r: Option<StampInfo>)
    ensures buf == [] ==> r.None?
    ensures buf != [] && buf[0] != DoHProtocol ==> r == Some(Other(buf[0]))
    ensures buf != [] && buf[0] == DoHProtocol ==> (r.Some? <==> |buf| >= 1 + FlagBytes)
    ensures r.Some? && r.value.DoH? ==> r.value.path != []
  {
    if buf == [] then None
    else if buf[0] != DoHProtocol then Some(Other(buf[0]))
    else if |buf| < 1 + FlagBytes then None
    else
      var addr := LP(buf, 1 + FlagBytes);
      var hashes := VLP(buf, addr.1);
      var host := LP(buf, hashes.1);
      var path := LP(buf, host.1);
      Some(DoH(AsText(addr.0), AsText(host.0), if path.0 == [] then DefaultPath else AsText(path.0)))
  }

  /** What `decodeStamp(stamp)` returns; `None` stands for `null`. */
  function Decoded(stamp: string): (r: Option<StampInfo>)
    ensures !StartsWith(stamp, Prefix) ==> r.None?
    ensures StartsWith(stamp, Prefix) && Trim(stamp[|Prefix|..]) == [] ==> r.None?
    ensures r.Some? && r.value.Other? ==> r.value.proto != DoHProtocol
    ensures r.Some? && r.value.DoH? ==> r.value.path != []
  {
    if !StartsWith(stamp, Prefix) then None
    else
      var b64 := Trim(stamp[|Prefix|..]);
      if b64 == [] then None
      else
        match Base64.Decode(Base64.Normalize(b64))
        case None => None
        case Some(buf) => DecodeBuffer(buf)
  }

  // ---------------------------------------------------------------------------
  // The decoder, walking the buffer with a cursor

  /** `readLP`: read a length byte at the cursor, then that many bytes; a field that would run past the
      end is empty and only its length byte is consumed. */
  method ReadLP(buf: seq<byte>, offset: nat) returns (field: seq<byte>, next: nat)
    requires offset <= |buf|
    ensures (field, next) == LP(buf, offset)
  {
    next := offset;
    if next >= |buf| {
      return [], next;
    }
    var len := buf[next] as int;
    next := next + 1;
    if len == 0 {
      return [], next;
    }
    var end := next + len;
    if end > |buf| {
      return [], next;
    }
    field := buf[next..end];
    next := end;
  }

  /** `readVLP`: read segments until one whose length byte has the high bit clear, until the buffer ends,
      or until a segment would run past the end (whose length byte is then the last byte consumed). */
  method ReadVLP(buf: seq<byte>, offset: nat) returns (parts: seq<seq<byte>>, next: nat)
    requires offset <= |buf|
    ensures (parts, next) == VLP(buf, offset)
  {
    parts := [];
    next := offset;
    while next < |buf|
      invariant offset <= next <= |buf|
      invariant VLPFrom(buf, next, parts) == VLP(buf, offset)
      decreases |buf| - next
    {
      ghost var at, before := next, parts;
      var lenByte := buf[next] as int;
      next := next + 1;
      var more := lenByte >= 0x80;
      var len := if more then lenByte - 0x80 else lenByte;
      if len != 0 {
        var end := next + len;
        if end > |buf| {
          VLPFromCut(buf, at, before);
          break;
        }
        var slice := buf[next..end];
        next := end;
        parts := parts + [slice];
      }
      VLPFromStep(buf, at, before, parts, next);
      if !more {
        break;
      }
    }
  }

  /** `decodeStamp`. */
  method DecodeStamp(stamp: string) returns (r: Option<StampInfo>)
    ensures r == Decoded(stamp)
  {
    if !StartsWith(stamp, Prefix) {
      return None;
    }
    var b64 := Trim(stamp[|Prefix|..]);
    if b64 == [] {
      return None;
    }
    var bytes := Base64.Decode(Base64.Normalize(b64));
    if bytes.None? {
      return None;
    }
    var buf := bytes.value;
    if |buf| == 0 {
      return None;
    }
    var proto := buf[0];
    if proto != DoHProtocol {
      return Some(Other(proto));
    }
    var offset := 1;
    if |buf| < offset + FlagBytes {
      return None;
    }
    offset := offset + FlagBytes;
    var addr, host, path, hashes;
    addr, offset := ReadLP(buf, offset);
    hashes, offset := ReadVLP(buf, offset);
    host, offset := ReadLP(buf, offset);
    path, offset := ReadLP(buf, offset);
    r := Some(DoH(AsText(addr), AsText(host), if path == [] then DefaultPath else AsText(path)));
  }

  // ---------------------------------------------------------------------------
  // The encoder of the DNS Stamps specification, and the round trip

  function EncodeLP(field: seq<byte>): seq<byte>
    requires |field| < 0x100
  {
    [|field| as byte] + field
  }

  /** Hash segments of 1 to 127 bytes; every length byte but the last has the high bit set; no segment
      at all is the single byte 0. */
  function EncodeVLP(parts: seq<seq<byte>>): seq<byte>
    requires forall k :: 0 <= k < |parts| ==> 0 < |parts[k]| < 0x80
  {
    if parts == [] then [0]
    else if |parts| == 1 then [|parts[0]| as byte] + parts[0]
    else [(0x80 + |parts[0]|) as byte] + parts[0] + EncodeVLP(parts[1..])
  }

  predicate EncodableDoH(flags: seq<byte>, addr: seq<byte>, hashes: seq<seq<byte>>, host: seq<byte>, path: seq<byte>) {
    && |flags| == FlagBytes
    && |addr| < 0x100 && |host| < 0x100 && |path| < 0x100
    && forall k :: 0 <= k < |hashes| ==> 0 < |hashes[k]| < 0x80
  }

  function EncodeDoH(flags: seq<byte>, addr: seq<byte>, hashes: seq<seq<byte>>, host: seq<byte>, path: seq<byte>): seq<byte>
    requires EncodableDoH(flags, addr, hashes, host, path)
  {
    [DoHProtocol] + flags + EncodeLP(addr) + EncodeVLP(hashes) + EncodeLP(host) + EncodeLP(path)
  }

  /** The pieces of a window of the buffer that holds a byte, then `p`, then `tail`. */
  lemma Window(buf: seq<byte>, o: nat, b: byte, p: seq<byte>, tail: seq<byte>)
    requires o + 1 + |p| + |tail| <= |buf| && buf[o..o + 1 + |p| + |tail|] == [b] + p + tail
    ensures buf[o] == b
    ensures buf[o + 1..o + 1 + |p|] == p
    ensures buf[o + 1 + |p|..o + 1 + |p| + |tail|] == tail
  {
    var w := buf[o..o + 1 + |p| + |tail|];
    assert buf[o] == w[0];
    forall i | 0 <= i < |p|
      ensures buf[o + 1 + i] == p[i]
    {
      assert buf[o + 1 + i] == w[1 + i];
    }
    forall i | 0 <= i < |tail|
      ensures buf[o + 1 + |p| + i] == tail[i]
    {
      assert buf[o + 1 + |p| + i] == w[1 + |p| + i];
    }
  }

  /** The LP encoding of `field` sits in `buf` at cursor `o`. */
  predicate LPEncodedAt(buf: seq<byte>, o: nat, field: seq<byte>)
    requires |field| < 0x100
  {
    o + 1 + |field| <= |buf| && buf[o..o + 1 + |field|] == EncodeLP(field)
  }

  /** An LP field found at the cursor reads back whole, and the cursor lands right after it. */
  lemma LPRoundTrip(buf: seq<byte>, o: nat, field: seq<byte>)
    requires |field| < 0x100 && LPEncodedAt(buf, o, field)
    ensures LP(buf, o) == (field, o + 1 + |field|)
  {
    Window(buf, o, |field| as byte, field, []);
  }

  /** A length byte with the high bit clear followed by its segment ends the list after that segment. */
  lemma VLPLastSegment(buf: seq<byte>, o: nat, p: seq<byte>, acc: seq<seq<byte>>)
    requires 0 < |p| < 0x80 && o + 1 + |p| <= |buf|
    requires buf[o] as int == |p| && buf[o + 1..o + 1 + |p|] == p
    ensures VLPFrom(buf, o, acc) == (acc + [p], o + 1 + |p|)
  {
  }

  /** A length byte with the high bit set followed by its segment goes on reading after that segment. */
  lemma VLPMoreSegment(buf: seq<byte>, o: nat, p: seq<byte>, rest: seq<seq<byte>>, acc: seq<seq<byte>>, end: nat)
    requires 0 < |p| < 0x80 && o + 1 + |p| <= |buf|
    requires buf[o] as int == 0x80 + |p| && buf[o + 1..o + 1 + |p|] == p
    requires VLPFrom(buf, o + 1 + |p|, acc + [p]) == ((acc + [p]) + rest, end)
    ensures VLPFrom(buf, o, acc) == (acc + ([p] + rest), end)
  {
    AppendAssoc(acc, [p], rest);
  }

  /** Hash segments a VLP field can carry: 1 to 127 bytes each. */
  predicate Segments(parts: seq<seq<byte>>) {
    forall k :: 0 <= k < |parts| ==> 0 < |parts[k]| < 0x80
  }

  /** The VLP encoding of `parts` sits in `buf` at cursor `o`. */
  predicate VLPEncodedAt(buf: seq<byte>, o: nat, parts: seq<seq<byte>>)
    requires Segments(parts)
  {
    o + |EncodeVLP(parts)| <= |buf| && buf[o..o + |EncodeVLP(parts)|] == EncodeVLP(parts)
  }

  /** The segments `parts` sit in `buf` from cursor `o`, each after its length byte, which has the high
      bit set on all but the last; no segment at all is a single zero byte. */
  predicate VLPAt(buf: seq<byte>, o: nat, parts: seq<seq<byte>>)
    decreases |parts|
  {
    if parts == [] then o < |buf| && buf[o] == 0
    else
      var p := parts[0];
      && 0 < |p| < 0x80 && o + 1 + |p| <= |buf|
      && buf[o] as int == (if |parts| > 1 then 0x80 else 0) + |p|
      && buf[o + 1..o + 1 + |p|] == p
      && (|parts| > 1 ==> VLPAt(buf, o + 1 + |p|, parts[1..]))
  }

  /** The first of several segments sits after its length byte, whose high bit is set. */
  lemma FirstSegmentAt(buf: seq<byte>, o: nat, parts: seq<seq<byte>>)
    requires |parts| > 1 && Segments(parts) && VLPEncodedAt(buf, o, parts)
    ensures buf[o] as int == 0x80 + |parts[0]| && buf[o + 1..o + 1 + |parts[0]|] == parts[0]
  {
    var p := parts[0];
    Window(buf, o, (0x80 + |p|) as byte, p, EncodeVLP(parts[1..]));
  }

  /** After the first of several segments, the encoding of the others follows. */
  lemma RestEncodedAt(buf: seq<byte>, o: nat, parts: seq<seq<byte>>)
    requires |parts| > 1 && Segments(parts) && VLPEncodedAt(buf, o, parts)
    ensures Segments(parts[1..]) && VLPEncodedAt(buf, o + 1 + |parts[0]|, parts[1..])
  {
    var p := parts[0];
    Window(buf, o, (0x80 + |p|) as byte, p, EncodeVLP(parts[1..]));
  }

  /** A single segment's encoding places it after its length byte. */
  lemma OneSegmentAt(buf: seq<byte>, o: nat, parts: seq<seq<byte>>)
    requires |parts| == 1 && Segments(parts) && VLPEncodedAt(buf, o, parts)
    ensures VLPAt(buf, o, parts)
  {
    var p := parts[0];
    Window(buf, o, |p| as byte, p, []);
  }

  /** The encoding of a list of segments places each after its length byte. */
  lemma {:induction false} EncodedSegmentsAt(buf: seq<byte>, o: nat, parts: seq<seq<byte>>)
    requires Segments(parts) && VLPEncodedAt(buf, o, parts)
    ensures VLPAt(buf, o, parts)
    decreases |parts|
  {
    if parts == [] {
      assert buf[o] == buf[o..o + 1][0];
    } else if |parts| == 1 {
      OneSegmentAt(buf, o, parts);
    } else {
      FirstSegmentAt(buf, o, parts);
      RestEncodedAt(buf, o, parts);
      EncodedSegmentsAt(buf, o + 1 + |parts[0]|, parts[1..]);
    }
  }

  /** The encoding of several segments is the first one's length byte and bytes, then the others' encoding. */
  lemma EncodeVLPLength(parts: seq<seq<byte>>)
    requires |parts| > 1 && Segments(parts)
    ensures |EncodeVLP(parts)| == 1 + |parts[0]| + |EncodeVLP(parts[1..])|
  {
  }

  /** The first of several placed segments follows a length byte with the high bit set, and the others
      are placed after it. */
  lemma VLPAtFirst(buf: seq<byte>, o: nat, parts: seq<seq<byte>>)
    requires |parts| > 1 && VLPAt(buf, o, parts)
    ensures 0 < |parts[0]| < 0x80 && o + 1 + |parts[0]| <= |buf|
    ensures buf[o] as int == 0x80 + |parts[0]| && buf[o + 1..o + 1 + |parts[0]|] == parts[0]
    ensures VLPAt(buf, o + 1 + |parts[0]|, parts[1..])
  {
  }

  /** Once the segments after the first read back, the whole list does. */
  lemma VLPMoreSegments(buf: seq<byte>, o: nat, parts: seq<seq<byte>>, acc: seq<seq<byte>>)
    requires |parts| > 1 && Segments(parts)
    requires o + 1 + |parts[0]| <= |buf|
    requires buf[o] as int == 0x80 + |parts[0]| && buf[o + 1..o + 1 + |parts[0]|] == parts[0]
    requires VLPFrom(buf, o + 1 + |parts[0]|, acc + [parts[0]])
             == ((acc + [parts[0]]) + parts[1..], o + 1 + |parts[0]| + |EncodeVLP(parts[1..])|)
    ensures VLPFrom(buf, o, acc) == (acc + parts, o + |EncodeVLP(parts)|)
  {
    VLPMoreSegment(buf, o, parts[0], parts[1..], acc, o + 1 + |parts[0]| + |EncodeVLP(parts[1..])|);
    assert [parts[0]] + parts[1..] == parts;
    EncodeVLPLength(parts);
  }

  /** Segments placed after their length bytes read back whole after the segments already read, and the
      cursor lands right after them. */
  lemma {:induction false} VLPFromRoundTrip(buf: seq<byte>, o: nat, parts: seq<seq<byte>>, acc: seq<seq<byte>>)
    requires Segments(parts) && VLPAt(buf, o, parts)
    ensures VLPFrom(buf, o, acc) == (acc + parts, o + |EncodeVLP(parts)|)
    decreases |parts|
  {
    if parts == [] {
      assert acc + [] == acc;
    } else if |parts| == 1 {
      VLPLastSegment(buf, o, parts[0], acc);
      assert [parts[0]] == parts;
    } else {
      VLPAtFirst(buf, o, parts);
      VLPFromRoundTrip(buf, o + 1 + |parts[0]|, parts[1..], acc + [parts[0]]);
      VLPMoreSegments(buf, o, parts, acc);
    }
  }

  /** A VLP list found at the cursor reads back whole, and the cursor lands right after it. */
  lemma VLPRoundTrip(buf: seq<byte>, o: nat, parts: seq<seq<byte>>)
    requires Segments(parts) && VLPEncodedAt(buf, o, parts)
    ensures VLP(buf, o) == (parts, o + |EncodeVLP(parts)|)
  {
    EncodedSegmentsAt(buf, o, parts);
    VLPFromRoundTrip(buf, o, parts, []);
    assert [] + parts == parts;
  }

  /** A DoH buffer whose four fields read as given decodes to their text. */
  lemma DecodedFields(buf: seq<byte>, addr: seq<byte>, hashes: seq<seq<byte>>, host: seq<byte>, path: seq<byte>,
                      o2: nat, o3: nat, o4: nat, o5: nat)
    requires |buf| >= 1 + FlagBytes && buf[0] == DoHProtocol
    requires LP(buf, 1 + FlagBytes) == (addr, o2)
    requires o2 <= |buf| && VLP(buf, o2) == (hashes, o3)
    requires o3 <= |buf| && LP(buf, o3) == (host, o4)
    requires o4 <= |buf| && LP(buf, o4) == (path, o5)
    ensures DecodeBuffer(buf) == Some(DoH(AsText(addr), AsText(host), if path == [] then DefaultPath else AsText(path)))
  {
  }

  /** A DoH buffer holding the encodings of its four fields one after the other decodes to their text. */
  lemma FieldsDecode(buf: seq<byte>, addr: seq<byte>, hashes: seq<seq<byte>>, host: seq<byte>, path: seq<byte>,
                     o2: nat, o3: nat, o4: nat)
    requires |buf| >= 1 + FlagBytes && buf[0] == DoHProtocol
    requires |addr| < 0x100 && |host| < 0x100 && |path| < 0x100 && Segments(hashes)
    requires o2 == 1 + FlagBytes + 1 + |addr| && o3 == o2 + |EncodeVLP(hashes)| && o4 == o3 + 1 + |host|
    requires LPEncodedAt(buf, 1 + FlagBytes, addr) && VLPEncodedAt(buf, o2, hashes)
    requires LPEncodedAt(buf, o3, host) && LPEncodedAt(buf, o4, path)
    ensures DecodeBuffer(buf) == Some(DoH(AsText(addr), AsText(host), if path == [] then DefaultPath else AsText(path)))
  {
    LPRoundTrip(buf, 1 + FlagBytes, addr);
    VLPRoundTrip(buf, o2, hashes);
    LPRoundTrip(buf, o3, host);
    LPRoundTrip(buf, o4, path);
    DecodedFields(buf, addr, hashes, host, path, o2, o3, o4, o4 + 1 + |path|);
  }

  /** Every DoH stamp the DNS Stamps specification describes (fields of at most 255 bytes, hash segments of
      1 to 127 bytes) decodes to its own address, hostname and path, an empty path to `/dns-query`. */
  lemma BufferRoundTrip(flags: seq<byte>, addr: seq<byte>, hashes: seq<seq<byte>>, host: seq<byte>, path: seq<byte>)
    requires EncodableDoH(flags, addr, hashes, host, path)
    ensures DecodeBuffer(EncodeDoH(flags, addr, hashes, host, path))
         == Some(DoH(AsText(addr), AsText(host), if path == [] then DefaultPath else AsText(path)))
  {
    var x1 := [DoHProtocol] + flags;
    var x2 := x1 + EncodeLP(addr);
    var x3 := x2 + EncodeVLP(hashes);
    var x4 := x3 + EncodeLP(host);
    var buf := x4 + EncodeLP(path);
    assert buf == EncodeDoH(flags, addr, hashes, host, path);
    var o1, o2, o3, o4 := |x1|, |x2|, |x3|, |x4|;
    assert LPEncodedAt(buf, o1, addr) by {
      BackSlice(x1, EncodeLP(addr));
      FrontSlice(x2, EncodeVLP(hashes), o1, o2);
      FrontSlice(x3, EncodeLP(host), o1, o2);
      FrontSlice(x4, EncodeLP(path), o1, o2);
    }
    assert VLPEncodedAt(buf, o2, hashes) by {
      BackSlice(x2, EncodeVLP(hashes));
      FrontSlice(x3, EncodeLP(host), o2, o3);
      FrontSlice(x4, EncodeLP(path), o2, o3);
    }
    assert LPEncodedAt(buf, o3, host) by {
      BackSlice(x3, EncodeLP(host));
      FrontSlice(x4, EncodeLP(path), o3, o4);
    }
    assert LPEncodedAt(buf, o4, path) by {
      BackSlice(x4, EncodeLP(path));
    }
    FieldsDecode(buf, addr, hashes, host, path, o2, o3, o4);
  }

  /** The whole round trip: `sdns://` followed by the unpadded URL-safe base 64 of an encoded DoH stamp. */
  lemma StampRoundTrip(flags: seq<byte>, addr: seq<byte>, hashes: seq<seq<byte>>, host: seq<byte>, path: seq<byte>)
    requires EncodableDoH(flags, addr, hashes, host, path)
    ensures Decoded(Prefix + Base64.EncodeUrl(EncodeDoH(flags, addr, hashes, host, path)))
         == Some(DoH(AsText(addr), AsText(host), if path == [] then DefaultPath else AsText(path)))
  {
    var buf := EncodeDoH(flags, addr, hashes, host, path);
    var body := Base64.EncodeUrl(buf);
    var stamp := Prefix + body;
    assert StartsWith(stamp, Prefix);
    assert stamp[|Prefix|..] == body;
    TrimOfTrimmed(body);
    Base64.RoundTrip(buf);
    BufferRoundTrip(flags, addr, hashes, host, path);
  }
}
