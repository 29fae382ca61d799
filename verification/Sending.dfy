/** The restored stream on its way to the client: one packet per chunk, and an empty one at the end of the file. */
module Sending {
  import opened Common
  import opened Serial
  import opened RestoreSpec

  /** Four bytes of length in network order, then the bytes. */
  function Packet(data: Bytes): Bytes
    requires Fits(|data|, 4)
  {
    Network(|data|, 4) + data
  }

  predicate Sendable(out: seq<Output>) {
    forall i | 0 <= i < |out| && out[i].Data? :: out[i].bytes != [] && Fits(|out[i].bytes|, 4)
  }

  function Ends(out: seq<Output>): nat {
    if out == [] then 0 else Ends(out[..|out| - 1]) + if out[|out| - 1].End? then 1 else 0
  }

  /** The packets of a stream that has at most one end of file. */
  function Packets(out: seq<Output>): seq<Bytes>
    requires Sendable(out)
  {
    if out == [] then []
    else
      Packets(out[..|out| - 1]) +
        match out[|out| - 1]
        case Start(_) => []
        case End => [Network(0, 4)]
        case Data(bytes) => [Packet(bytes)]
  }

  lemma {:induction false} EndsPrefix(out: seq<Output>, n: nat)
    requires n <= |out|
    ensures Ends(out[..n]) <= Ends(out)
    decreases |out|
  {
    if n < |out| {
      EndsPrefix(out[..|out| - 1], n);
      assert out[..|out| - 1][..n] == out[..n];
    } else {
      assert out[..n] == out;
    }
  }

  /** write_restore_data: it asserts that there is one file, so a second end of file stops it. */
  method WriteRestoreData(little: bool, out: seq<Output>) returns (r: Outcome<seq<Bytes>>)
    requires Sendable(out)
    ensures r.Done? <==> Ends(out) <= 1
    ensures r.Done? ==> r.value == Packets(out)
  {
    var packets: seq<Bytes>, fileNum := [], 0;
    for i := 0 to |out|
      invariant fileNum == Ends(out[..i]) <= 1 && Sendable(out[..i]) && packets == Packets(out[..i])
    {
      assert out[..i + 1][..i] == out[..i];
      match out[i] {
        case Start(_) =>
        case End =>
          fileNum := fileNum + 1;
          if fileNum != 1 {
            EndsPrefix(out, i + 1);
            return Crash;
          }
          var len := SerialInt32(little, 0);
          packets := packets + [len];
        case Data(bytes) =>
          var len := SerialInt32(little, |bytes|);
          packets := packets + [len + bytes];
      }
    }
    assert out[..|out|] == out;
    return Done(packets);
  }

  /** The bytes of a file from its packets: lengths are read until one is 0. None if the packets end before. */
  function Unpack(packets: seq<Bytes>): Option<Bytes> {
    if packets == [] || |packets[0]| < 4 then None
    else
      var len := Signed(Value(packets[0][..4]), 4);
      if len == 0 then Some([])
      else if len != |packets[0]| - 4 then None
      else
        var rest := Unpack(packets[1..]);
        if rest.None? then None else Some(packets[0][4..] + rest.value)
  }

  /** The chunks of one file, as the restore threads deliver them. */
  function Pieces(chunks: seq<Bytes>): (r: seq<Output>)
    ensures |r| == |chunks| && forall i | 0 <= i < |chunks| :: r[i] == Data(chunks[i])
  {
    seq(|chunks|, i requires 0 <= i < |chunks| => Data(chunks[i]))
  }

  function ChunkPackets(chunks: seq<Bytes>): seq<Bytes>
    requires forall i | 0 <= i < |chunks| :: Fits(|chunks[i]|, 4)
  {
    seq(|chunks|, i requires 0 <= i < |chunks| => Packet(chunks[i]))
  }

  lemma {:induction false} UnpackPackets(chunks: seq<Bytes>)
    requires forall i | 0 <= i < |chunks| :: chunks[i] != [] && Fits(|chunks[i]|, 4)
    ensures Fits(0, 4) && Unpack(ChunkPackets(chunks) + [Network(0, 4)]) == Some(Flat(chunks))
  {
    var end := Network(0, 4);
    NetworkRoundTrip(0, 4);
    assert end[..4] == end;
    if chunks == [] {
      assert ChunkPackets(chunks) + [end] == [end];
    } else {
      var c := chunks[0];
      var all := ChunkPackets(chunks) + [end];
      UnpackPackets(chunks[1..]);
      assert all[1..] == ChunkPackets(chunks[1..]) + [end];
      assert all[0] == Packet(c) && Packet(c)[..4] == Network(|c|, 4) && Packet(c)[4..] == c;
      NetworkRoundTrip(|c|, 4);
      FlatHead(chunks);
    }
  }

  lemma {:induction false} PacketsOfFile(name: Bytes, chunks: seq<Bytes>)
    requires forall i | 0 <= i < |chunks| :: chunks[i] != [] && Fits(|chunks[i]|, 4)
    ensures Sendable([Start(name)] + Pieces(chunks)) && Packets([Start(name)] + Pieces(chunks)) == ChunkPackets(chunks)
    ensures Ends([Start(name)] + Pieces(chunks)) == 0
  {
    var out := [Start(name)] + Pieces(chunks);
    if chunks == [] {
      assert out[..0] == [];
    } else {
      var n := |chunks| - 1;
      PacketsOfFile(name, chunks[..n]);
      assert out[..|out| - 1] == [Start(name)] + Pieces(chunks[..n]);
      assert ChunkPackets(chunks) == ChunkPackets(chunks[..n]) + [Packet(chunks[n])];
    }
  }

  /** A restored file is sent without a failed assert, and its packets carry exactly its bytes. */
  lemma {:induction false} OneFileIsSent(name: Bytes, chunks: seq<Bytes>)
    requires forall i | 0 <= i < |chunks| :: chunks[i] != [] && Fits(|chunks[i]|, 4)
    ensures var out := [Start(name)] + Pieces(chunks) + [End];
            Sendable(out) && Ends(out) == 1 && Unpack(Packets(out)) == Some(Flat(chunks))
  {
    var file := [Start(name)] + Pieces(chunks);
    PacketsOfFile(name, chunks);
    assert (file + [End])[..|file|] == file;
    UnpackPackets(chunks);
  }
}
