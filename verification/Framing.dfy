/** Reassembly of length-prefixed packages from a byte stream:
    nwc_connection_on_recv of 04-30_nwchecker_refactor/nwc_connection.c. */
module Framing {
  import opened Sequences
  import opened Words
  import Qos

  const HEADER_LEN := Qos.HEADER_LEN
  const RECV_BUFFER_LEN := 4096

  // The payload length is the fourth 32-bit word of a header.
  function Length(s: seq<byte>): uint32
    requires |s| >= HEADER_LEN
  {
    LittleEndian32(s[12], s[13], s[14], s[15])
  }

  function Size(s: seq<byte>): nat
    requires |s| >= HEADER_LEN
  {
    HEADER_LEN + Length(s)
  }

  predicate StartsComplete(s: seq<byte>) { |s| >= HEADER_LEN && |s| >= Size(s) }

  // The complete packages at the front of a stream, and the bytes that are left.
  function Packages(s: seq<byte>): seq<seq<byte>> {
    if !StartsComplete(s) then [] else [s[..Size(s)]] + Packages(s[Size(s)..])
  }

  function Rest(s: seq<byte>): seq<byte> {
    if !StartsComplete(s) then s else Rest(s[Size(s)..])
  }

  // ---------- what the parse means ----------

  predicate IsPackage(p: seq<byte>) { |p| >= HEADER_LEN && |p| == Size(p) }

  // ps and rest are a way to cut the stream: whole packages first, then too few bytes for another.
  ghost predicate IsParse(s: seq<byte>, ps: seq<seq<byte>>, rest: seq<byte>) {
    && s == Flatten(ps) + rest
    && (forall i :: 0 <= i < |ps| ==> IsPackage(ps[i]))
    && !StartsComplete(rest)
  }

  lemma {:induction false} ParseIsParse(s: seq<byte>)
    ensures IsParse(s, Packages(s), Rest(s))
  {
    if StartsComplete(s) {
      var p, tail := s[..Size(s)], s[Size(s)..];
      ParseIsParse(tail);
      assert IsPackage(p);
      assert Packages(s) == [p] + Packages(tail);
      FlattenAppend([p], Packages(tail));
      assert Flatten([p]) == p;
      assert s == p + tail == p + (Flatten(Packages(tail)) + Rest(tail));
    }
  }

  /** There is only one way to cut a stream, and it is the one the program computes. */
  lemma {:induction false} ParseIsUnique(s: seq<byte>, ps: seq<seq<byte>>, rest: seq<byte>)
    requires IsParse(s, ps, rest)
    ensures ps == Packages(s) && rest == Rest(s)
    decreases |ps|
  {
    if ps == [] {
      assert s == rest;
    } else {
      var p := ps[0];
      assert s == p + (Flatten(ps[1..]) + rest);
      assert Length(s) == Length(p);
      assert s[..Size(s)] == p && s[Size(s)..] == Flatten(ps[1..]) + rest;
      ParseIsUnique(s[Size(s)..], ps[1..], rest);
    }
  }

  lemma ParsesJoin(a: seq<byte>, b: seq<byte>, ps: seq<seq<byte>>, mid: seq<byte>,
                   more: seq<seq<byte>>, rest: seq<byte>)
    requires IsParse(a, ps, mid) && IsParse(mid + b, more, rest)
    ensures IsParse(a + b, ps + more, rest)
  {
    FlattenAppend(ps, more);
    calc {
      a + b;
      Flatten(ps) + mid + b;
      Flatten(ps) + (mid + b);
      Flatten(ps) + (Flatten(more) + rest);
      Flatten(ps + more) + rest;
    }
  }

  /** Parsing can stop at any byte and resume from the rest. */
  lemma ParseResumes(a: seq<byte>, b: seq<byte>)
    ensures Packages(a + b) == Packages(a) + Packages(Rest(a) + b)
    ensures Rest(a + b) == Rest(Rest(a) + b)
  {
    ParseIsParse(a);
    ParseIsParse(Rest(a) + b);
    var ps, more, rest := Packages(a), Packages(Rest(a) + b), Rest(Rest(a) + b);
    ParsesJoin(a, b, ps, Rest(a), more, rest);
    ParseIsUnique(a + b, ps + more, rest);
  }

  // ---------- runs over a stream cut into chunks ----------

  function Delivered(chunks: seq<seq<byte>>): seq<seq<byte>> {
    if chunks == [] then []
    else
      var last := |chunks| - 1;
      Delivered(chunks[..last]) + Packages(Left(chunks[..last]) + chunks[last])
  }

  function Left(chunks: seq<seq<byte>>): seq<byte> {
    if chunks == [] then []
    else
      var last := |chunks| - 1;
      Rest(Left(chunks[..last]) + chunks[last])
  }

  /** However the stream is cut, what is delivered is the parse of the whole stream at once. */
  lemma {:induction false} ChunksDoNotMatter(chunks: seq<seq<byte>>)
    ensures Delivered(chunks) == Packages(Flatten(chunks))
    ensures Left(chunks) == Rest(Flatten(chunks))
  {
    if chunks != [] {
      var last := |chunks| - 1;
      var before := chunks[..last];
      ChunksDoNotMatter(before);
      assert chunks == before + [chunks[last]];
      FlattenAppend(before, [chunks[last]]);
      assert Flatten([chunks[last]]) == chunks[last];
      ParseResumes(Flatten(before), chunks[last]);
    }
  }

  /** So whole packages sent back to back arrive as sent, whatever the chunks. */
  lemma {:induction false} PackagesArrive(sent: seq<seq<byte>>, chunks: seq<seq<byte>>)
    requires forall i :: 0 <= i < |sent| ==> IsPackage(sent[i])
    requires Flatten(chunks) == Flatten(sent)
    ensures Delivered(chunks) == sent && Left(chunks) == []
  {
    ChunksDoNotMatter(chunks);
    assert Flatten(sent) == Flatten(sent) + [];
    ParseIsUnique(Flatten(chunks), sent, []);
  }

  // ---------- the buffer ----------

  /** If every package of the stream fits the buffer, the buffer never stays full. */
  lemma FittingPackagesKeepRoom(stream: seq<byte>, chunks: seq<seq<byte>>, later: seq<byte>)
    requires stream == Flatten(chunks) + later
    requires forall i :: 0 <= i < |Packages(stream)| ==> |Packages(stream)[i]| <= 4096
    requires |Rest(stream)| >= HEADER_LEN ==> Size(Rest(stream)) <= 4096
    ensures |Left(chunks)| < 4096
  {
    ChunksDoNotMatter(chunks);
    var left := Left(chunks);
    if |left| >= HEADER_LEN {
      ParseResumes(Flatten(chunks), later);
      ParseIsParse(Flatten(chunks));
      assert Length(left + later) == Length(left);
      var k := |Packages(Flatten(chunks))|;
      if StartsComplete(left + later) {
        assert Packages(stream)[k] == Packages(left + later)[0];
        assert |Packages(stream)[k]| == Size(left);
      } else {
        assert Rest(stream) == left + later;
      }
    }
  }
}
