/** The UDP server's peer table: nwc_connection_udp_accept and get_nwc_connection of
    04-30_nwchecker_refactor/nwc_connection.c. */
module PeerTable {
  import opened Sequences
  import opened Words
  import Framing
  import Qos

  const RECV_BUFFER_LEN := Framing.RECV_BUFFER_LEN

  // A peer is known by the port and the IPv4 address of its datagrams.
  datatype Address = Address(ip: uint32, port: nat)

  // The list of the source address of every datagram, first occurrences only.
  function Peers(sources: seq<Address>): seq<Address> {
    if sources == [] then []
    else
      var before, last := Peers(sources[..|sources| - 1]), sources[|sources| - 1];
      if last in before then before else before + [last]
  }

  /** The i-th peer is the source of datagram at[i], the first from that address, and every source has its peer:
      the order-preserving deduplication. */
  lemma {:induction false} PeersAreFirstOccurrences(sources: seq<Address>) returns (at: seq<nat>)
    ensures |at| == |Peers(sources)| && Distinct(Peers(sources))
    ensures forall i :: 0 <= i < |at| ==>
              at[i] < |sources| && sources[at[i]] == Peers(sources)[i] && sources[at[i]] !in sources[..at[i]]
    ensures forall i, j :: 0 <= i < j < |at| ==> at[i] < at[j]
    ensures forall a :: a in sources <==> a in Peers(sources)
  {
    if sources == [] {
      at := [];
    } else {
      var n := |sources| - 1;
      at := PeersAreFirstOccurrences(sources[..n]);
      assert sources == sources[..n] + [sources[n]];
      assert forall i :: 0 <= i < |at| ==> sources[..n][..at[i]] == sources[..at[i]];
      if sources[n] !in Peers(sources[..n]) {
        at := at + [n];
      }
    }
  }

  class UdpServer {
    var peers: seq<Address>
    ghost var sources: seq<Address>  // of every datagram received so far

    ghost predicate Valid()
      reads this
    {
      peers == Peers(sources)
    }

    constructor ()
      ensures Valid() && sources == []
    {
      peers, sources := [], [];
    }

    // The list scan.
    method Find(a: Address) returns (k: nat)
      ensures k <= |peers| && a !in peers[..k]
      ensures k < |peers| ==> peers[k] == a
    {
      k := 0;
      while k < |peers|
        invariant k <= |peers| && a !in peers[..k]
      {
        if peers[k] == a {
          return;
        }
        k := k + 1;
      }
    }

    /** A datagram from a new address adds a peer at the tail, and any datagram is answered at once, to its source, with
        the stamp in its first four bytes; a shorter one leaves the rest of the stamp to the junk in the buffer. An
        empty datagram is taken for a failed receive, which does nothing. */
    method Accept(received: Option<(Address, seq<byte>)>, junk: seq<byte>, now: uint32)
        returns (reply: Option<(Address, Qos.Header)>)
      requires |junk| == RECV_BUFFER_LEN && (received.Some? ==> |received.value.1| <= RECV_BUFFER_LEN)
      requires Valid()
      modifies this
      ensures Valid()
      ensures received.None? || received.value.1 == [] ==> reply == None && sources == old(sources)
      ensures received.Some? && received.value.1 != [] ==>
                var (source, data) := received.value;
                && sources == old(sources) + [source]
                && peers == (if source in old(peers) then old(peers) else old(peers) + [source])
                && reply.Some? && reply.value.0 == source && Spells(data + junk[|data|..], reply.value.1.ackTimestamp)
                && reply.value.1.timestamp == now && reply.value.1.recvDelay == 0 && reply.value.1.length == 4
                && (|data| >= 4 ==> Spells(data, reply.value.1.ackTimestamp))
    {
      if received == None || received.value.1 == [] {
        return None;
      }
      var (source, data) := received.value;
      var buffer := data + junk[|data|..];
      assert (sources + [source])[..|sources|] == sources;
      sources := sources + [source];
      var k := Find(source);
      if k == |peers| {
        peers := peers + [source];
      }
      FirstWordSpells(buffer);
      reply := Some((source, Qos.AckPackage(LittleEndian32(buffer[0], buffer[1], buffer[2], buffer[3]), 0, now)));
    }
  }
}
