/**
 The small-file stream (`write_small_files_to_stream` in crates/core/src/net/send.rs,
 `read_small_files_from_stream` in crates/core/src/net/recv.rs): after a count, one record a file, each of
 path length, path, mtime, `metadata.size` and data, the numbers as big-endian u64.
 */
module Framing {
  import opened Wrappers
  import opened Chunks

  /** What the sender writes; `size` is the manifest's, `data` what it read from disk. */
  datatype Record = Record(path: Bytes, modified: nat, size: nat, data: Bytes) {
    ghost predicate Valid() {
      |path| < U64 && modified < U64 && size < U64
    }

    ghost predicate WellSized() {
      |data| == size
    }

    function Sent(): Payload {
      Payload(path, modified, data)
    }
  }

  datatype Payload = Payload(path: Bytes, modified: nat, data: Bytes)

  function Pow256(k: nat): nat {
    if k == 0 then 1 else 256 * Pow256(k - 1)
  }

  function BigEndian(v: nat, k: nat): (b: Bytes)
    ensures |b| == k
  {
    if k == 0 then [] else BigEndian(v / 256, k - 1) + [v % 256]
  }

  function Value(b: Bytes): nat {
    if b == [] then 0 else 256 * Value(b[..|b| - 1]) + b[|b| - 1]
  }

  lemma {:induction false} ValueBigEndian(v: nat, k: nat)
    requires v < Pow256(k)
    ensures Value(BigEndian(v, k)) == v
  {
    if k > 0 {
      var high := BigEndian(v / 256, k - 1);
      ValueBigEndian(v / 256, k - 1);
      assert (high + [v % 256])[..k - 1] == high;
    }
  }

  function U64Bytes(v: nat): (b: Bytes)
    ensures |b| == 8
  {
    BigEndian(v, 8)
  }

  /** A `u64` is what eight bytes hold. */
  lemma EightBytes()
    ensures U64 == Pow256(8)
  {
    assert Pow256(8) == 256 * (256 * (256 * (256 * (256 * (256 * (256 * (256 * Pow256(0))))))));
  }

  lemma ValueU64(v: nat)
    requires v < U64
    ensures Value(U64Bytes(v)) == v
  {
    EightBytes();
    ValueBigEndian(v, 8);
  }

  function Encode(r: Record): Bytes {
    U64Bytes(|r.path|) + r.path + U64Bytes(r.modified) + U64Bytes(r.size) + r.data
  }

  function EncodeAll(rs: seq<Record>): Bytes {
    if rs == [] then [] else Encode(rs[0]) + EncodeAll(rs[1..])
  }

  /** Eight bytes, the highest first, of a number that needs but two. */
  function TwoOfEight(v: nat): Bytes
    requires v < 65_536
  {
    [0, 0, 0, 0, 0, 0, v / 256, v % 256]
  }

  /** A record on the wire: path length, path, mtime, size and data in this order, high bytes first. */
  lemma {:induction false} OnTheWire(r: Record)
    requires |r.path| < 65_536 && r.modified < 65_536 && r.size < 65_536
    ensures Encode(r) == TwoOfEight(|r.path|) + r.path + TwoOfEight(r.modified) + TwoOfEight(r.size) + r.data
  {
    Spread(|r.path|);
    Spread(r.modified);
    Spread(r.size);
    hide BigEndian, TwoOfEight;
  }

  lemma Spread(v: nat)
    requires v < 65_536
    ensures BigEndian(v, 8) == TwoOfEight(v)
  {
    assert BigEndian(v, 8) == BigEndian(v / 256, 7) + [v % 256];
    assert BigEndian(v / 256, 7) == BigEndian(0, 6) + [v / 256];
    assert BigEndian(0, 6) == BigEndian(0, 5) + [0];
    assert BigEndian(0, 5) == BigEndian(0, 4) + [0];
    assert BigEndian(0, 4) == BigEndian(0, 3) + [0];
    assert BigEndian(0, 3) == BigEndian(0, 2) + [0];
    assert BigEndian(0, 2) == BigEndian(0, 1) + [0];
    assert BigEndian(0, 1) == BigEndian(0, 0) + [0];
  }

  method WriteRecord(before: Bytes, r: Record) returns (stream: Bytes)
    ensures stream == before + Encode(r)
  {
    hide U64Bytes;
    stream := before + U64Bytes(|r.path|);
    stream := stream + r.path;
    stream := stream + U64Bytes(r.modified);
    stream := stream + U64Bytes(r.size);
    stream := stream + r.data;
  }

  method WriteRecords(rs: seq<Record>) returns (stream: Bytes)
    ensures stream == EncodeAll(rs)
  {
    stream := [];
    hide Encode;
    for i := 0 to |rs|
      invariant stream + EncodeAll(rs[i..]) == EncodeAll(rs)
    {
      ghost var before := stream;
      stream := WriteRecord(stream, rs[i]);
      assert rs[i..][1..] == rs[i + 1..];
      assert EncodeAll(rs[i..]) == Encode(rs[i]) + EncodeAll(rs[i + 1..]);
      assert before + (Encode(rs[i]) + EncodeAll(rs[i + 1..])) == stream + EncodeAll(rs[i + 1..]);
    }
  }

  /** One record off the front, or None where `read_exact` meets the end of the stream. */
  function ReadOne(b: Bytes): Option<(Payload, Bytes)> {
    if |b| < 8 then None
    else
      var pathLen, b1 := Value(b[..8]), b[8..];
      if |b1| < pathLen then None
      else
        var path, b2 := b1[..pathLen], b1[pathLen..];
        if |b2| < 16 then None
        else
          var modified, dataLen, b3 := Value(b2[..8]), Value(b2[8..16]), b2[16..];
          if |b3| < dataLen then None
          else Some((Payload(path, modified, b3[..dataLen]), b3[dataLen..]))
  }

  /** The payloads handed to the disk thread, and whether every counted record was read. */
  function ReadAll(b: Bytes, count: nat): (seq<Payload>, bool) {
    if count == 0 then ([], true)
    else
      match ReadOne(b)
      case None => ([], false)
      case Some((p, rest)) => var (ps, ok) := ReadAll(rest, count - 1); ([p] + ps, ok)
  }

  lemma ReadNothing(b: Bytes)
    ensures ReadAll(b, 0) == ([], true)
  {
  }

  lemma ReadAllStep(b: Bytes, n: nat, sofar: seq<Payload>)
    requires n > 0 && ReadOne(b).Some?
    ensures var (p, rest) := ReadOne(b).value;
            && sofar + ReadAll(b, n).0 == (sofar + [p]) + ReadAll(rest, n - 1).0
            && ReadAll(b, n).1 == ReadAll(rest, n - 1).1
  {
    hide ReadOne;
    var (p, rest) := ReadOne(b).value;
    assert ReadAll(b, n).0 == [p] + ReadAll(rest, n - 1).0;
  }

  /** `stop`: the record at which `select!` picks the cancelled arm, which returns Ok. */
  method ReadRecords(b: Bytes, count: nat, stop: Option<nat>) returns (delivered: seq<Payload>, ok: bool)
    ensures var wanted := if stop.Some? && stop.value < count then stop.value else count;
            delivered == ReadAll(b, wanted).0 && ok == ReadAll(b, wanted).1
  {
    hide ReadOne;
    var rest := b;
    ReadNothing(b);
    delivered := [];
    ghost var wanted := if stop.Some? && stop.value < count then stop.value else count;
    for i := 0 to count
      invariant i <= wanted
      invariant ReadAll(b, wanted).0 == delivered + ReadAll(rest, wanted - i).0
      invariant ReadAll(b, wanted).1 == ReadAll(rest, wanted - i).1
    {
      if stop == Some(i) {
        return delivered, true;
      }
      match ReadOne(rest) {
        case None =>
          return delivered, false;
        case Some((p, after)) =>
          ReadAllStep(rest, wanted - i, delivered);
          delivered, rest := delivered + [p], after;
      }
    }
    return delivered, true;
  }

  /** How many whole records the first k bytes hold. */
  function Whole(rs: seq<Record>, k: nat): (n: nat)
    ensures n <= |rs|
  {
    if rs == [] || k < |Encode(rs[0])| then 0 else 1 + Whole(rs[1..], k - |Encode(rs[0])|)
  }

  function SentAll(rs: seq<Record>): (ps: seq<Payload>)
    ensures |ps| == |rs|
  {
    seq(|rs|, i requires 0 <= i < |rs| => rs[i].Sent())
  }

  lemma ReadHead(r: Record, rest: Bytes)
    requires r.Valid() && r.WellSized()
    ensures ReadOne(Encode(r) + rest) == Some((r.Sent(), rest))
  {
    ValueU64(|r.path|);
    ValueU64(r.modified);
    ValueU64(r.size);
    hide U64Bytes, Value;
    var tail := U64Bytes(r.modified) + U64Bytes(r.size) + (r.data + rest);
    var b := Encode(r) + rest;
    assert b == U64Bytes(|r.path|) + (r.path + tail);
    assert b[..8] == U64Bytes(|r.path|) && b[8..] == r.path + tail;
    assert (r.path + tail)[..|r.path|] == r.path && (r.path + tail)[|r.path|..] == tail;
    assert tail[..8] == U64Bytes(r.modified) && tail[8..16] == U64Bytes(r.size) && tail[16..] == r.data + rest;
    assert (r.data + rest)[..|r.data|] == r.data && (r.data + rest)[|r.data|..] == rest;
  }

  lemma ReadCut(r: Record, k: nat)
    requires r.Valid() && r.WellSized() && k < |Encode(r)|
    ensures ReadOne(Encode(r)[..k]) == None
  {
    ValueU64(|r.path|);
    ValueU64(r.size);
    var b := Encode(r)[..k];
    if k >= 8 {
      assert b[..8] == U64Bytes(|r.path|);
      if k >= 8 + |r.path| + 16 {
        var at := 16 + |r.path|;
        assert Encode(r)[at..at + 8] == U64Bytes(r.size);
        assert b[8..][|r.path|..][8..16] == b[at..at + 8] == Encode(r)[at..at + 8];
      }
    }
  }

  /** The data a record is read back with has the length of its size field. */
  lemma ReadLength(r: Record, rest: Bytes)
    requires r.Valid()
    ensures var o := ReadOne(Encode(r) + rest); o.Some? ==> |o.value.0.data| == r.size
  {
    ValueU64(|r.path|);
    ValueU64(r.size);
    var b := Encode(r) + rest;
    assert b[..8] == U64Bytes(|r.path|);
    var b2 := b[8..][|r.path|..];
    assert b2[8..16] == U64Bytes(r.size);
  }

  lemma NothingToRead()
    ensures ReadOne([]) == None
  {
  }

  lemma SentAllHead(rs: seq<Record>)
    requires rs != []
    ensures SentAll(rs) == [rs[0].Sent()] + SentAll(rs[1..])
  {
  }

  /**
   A stream cut after any number of bytes, with any count: the reader delivers exactly the whole records the bytes
   hold, as far as counted, and succeeds if and only if there were as many as counted.
   */
  lemma {:induction false} CutStream(rs: seq<Record>, k: nat, count: nat)
    requires forall i :: 0 <= i < |rs| ==> rs[i].Valid() && rs[i].WellSized()
    requires k <= |EncodeAll(rs)|
    ensures var n := Whole(rs, k);
            var (delivered, ok) := ReadAll(EncodeAll(rs)[..k], count);
            delivered == SentAll(rs)[..if n < count then n else count] && (ok <==> count <= n)
  {
    hide ReadOne, Encode;
    var b := EncodeAll(rs)[..k];
    if count > 0 && rs == [] {
      assert b == [] && ReadOne([]) == None by { NothingToRead(); }
    } else if count > 0 {
      var head, tail := Encode(rs[0]), EncodeAll(rs[1..]);
      if k < |head| {
        assert b == head[..k];
        ReadCut(rs[0], k);
      } else {
        assert b == head + tail[..k - |head|];
        ReadHead(rs[0], tail[..k - |head|]);
        CutStream(rs[1..], k - |head|, count - 1);
        SentAllHead(rs);
        var n := Whole(rs[1..], k - |head|);
        var m := if n < count - 1 then n else count - 1;
        assert SentAll(rs)[..m + 1] == [rs[0].Sent()] + SentAll(rs[1..])[..m];
      }
    }
  }

  /** The stream of `process_small_files`: without a whole count it is taken for the end, not for an error. */
  function ReadStream(b: Bytes): (seq<Payload>, bool) {
    if |b| < 8 then ([], true) else ReadAll(b[8..], Value(b[..8]))
  }

  function Announced(count: nat, rs: seq<Record>): Bytes {
    U64Bytes(count) + EncodeAll(rs)
  }

  /** `stop` as in `ReadRecords`. */
  method ProcessSmallFiles(b: Bytes, stop: Option<nat>) returns (delivered: seq<Payload>, ok: bool)
    ensures stop == None ==> (delivered, ok) == ReadStream(b)
    ensures stop.Some? && |b| >= 8 ==>
              var count := Value(b[..8]);
              (delivered, ok) == ReadAll(b[8..], if stop.value < count then stop.value else count)
    ensures |b| < 8 ==> delivered == [] && ok
  {
    if |b| < 8 {
      return [], true;
    }
    delivered, ok := ReadRecords(b[8..], Value(b[..8]), stop);
  }

  /**
   A whole small-file stream cut after any number of bytes, whatever count it announces: it succeeds if and only if it
   was cut inside the count, when nothing is delivered, or holds as many whole records as announced.
   */
  lemma CutAnywhere(count: nat, rs: seq<Record>, k: nat)
    requires count < U64 && forall i :: 0 <= i < |rs| ==> rs[i].Valid() && rs[i].WellSized()
    requires k <= |Announced(count, rs)|
    ensures var (delivered, ok) := ReadStream(Announced(count, rs)[..k]);
            var n := if k < 8 then 0 else Whole(rs, k - 8);
            && (ok <==> k < 8 || count <= n)
            && delivered == SentAll(rs)[..if k >= 8 && count < n then count else n]
  {
    var b := Announced(count, rs)[..k];
    if k >= 8 {
      ValueU64(count);
      assert b[..8] == U64Bytes(count) && b[8..] == EncodeAll(rs)[..k - 8];
      hide ReadAll, SentAll, Whole, Value, U64Bytes, EncodeAll;
      CutStream(rs, k - 8, count);
    }
  }

  lemma {:induction false} WholeOfAll(rs: seq<Record>)
    ensures Whole(rs, |EncodeAll(rs)|) == |rs|
  {
    if rs != [] {
      WholeOfAll(rs[1..]);
    }
  }

  /** Round trip: the records come back unchanged, in order, if and only if every file still had its stated size. */
  lemma RoundTrip(rs: seq<Record>)
    requires forall i :: 0 <= i < |rs| ==> rs[i].Valid()
    ensures ReadAll(EncodeAll(rs), |rs|) == (SentAll(rs), true) <==> forall i :: 0 <= i < |rs| ==> rs[i].WellSized()
  {
    if forall i :: 0 <= i < |rs| ==> rs[i].WellSized() {
      WholeOfAll(rs);
      CutStream(rs, |EncodeAll(rs)|, |rs|);
      assert EncodeAll(rs)[..|EncodeAll(rs)|] == EncodeAll(rs);
      assert SentAll(rs)[..|rs|] == SentAll(rs);
    } else {
      MisSized(rs);
    }
  }

  lemma HeadTail(p: Payload, a: seq<Payload>, b: seq<Payload>)
    ensures [p] + a == [p] + b <==> a == b
  {
    assert ([p] + a)[1..] == a && ([p] + b)[1..] == b;
  }

  lemma {:induction false} MisSized(rs: seq<Record>)
    requires forall i :: 0 <= i < |rs| ==> rs[i].Valid()
    requires !forall i :: 0 <= i < |rs| ==> rs[i].WellSized()
    ensures ReadAll(EncodeAll(rs), |rs|) != (SentAll(rs), true)
  {
    hide ReadOne, Encode, SentAll;
    var tail := EncodeAll(rs[1..]);
    SentAllHead(rs);
    ReadLength(rs[0], tail);
    if rs[0].WellSized() {
      ReadHead(rs[0], tail);
      MisSized(rs[1..]);
      var (ps, ok) := ReadAll(tail, |rs| - 1);
      assert ReadAll(EncodeAll(rs), |rs|) == ([rs[0].Sent()] + ps, ok);
      HeadTail(rs[0].Sent(), ps, SentAll(rs[1..]));
    } else {
      var o := ReadOne(Encode(rs[0]) + tail);
      if o.Some? {
        var ps := ReadAll(o.value.1, |rs| - 1).0;
        assert ReadAll(EncodeAll(rs), |rs|).0 == [o.value.0] + ps;
        assert ([o.value.0] + ps)[0] != ([rs[0].Sent()] + SentAll(rs[1..]))[0];
      }
    }
  }
}
