/**
  The Proxy Positions notification (gateway/proxy.py): a count byte, then
  15-byte entries of a 16-bit node id and a 13-byte position block (x, y, z
  as signed 32-bit millimetres and a quality byte). The handler prints each
  entry and stops at the first one that does not fit; here it returns the
  entries it would print.
 */
module ProxyPositions {
  import opened Wrappers
  import opened Bytes
  import opened Location

  datatype TagPosition = TagPosition(nodeId: nat, position: Position)

  function TagPositionAt(data: seq<byte>, off: nat): TagPosition
    requires off + 15 <= |data|
  {
    TagPosition(U16LE(data[off .. off + 2]), PositionAt(data, off + 2))
  }

  /** The handler's loop with `remaining` iterations left and the read offset at `off`. */
  function Entries(data: seq<byte>, off: nat, remaining: nat): (r: seq<TagPosition>)
    ensures |r| == Min(remaining, Fit(|data|, off, 15))
    decreases remaining
  {
    if remaining == 0 || off + 15 > |data| then []
    else
      assert Fit(|data|, off + 15, 15) == Fit(|data|, off, 15) - 1;
      [TagPositionAt(data, off)] + Entries(data, off + 15, remaining - 1)
  }

  /** Entry `j` starts at `off + 15 j`: the offset advances by exactly 15 per entry. */
  lemma {:induction false} EntriesAt(data: seq<byte>, off: nat, remaining: nat, j: nat)
    requires j < |Entries(data, off, remaining)|
    ensures off + 15 * j + 15 <= |data|
    ensures Entries(data, off, remaining)[j] == TagPositionAt(data, off + 15 * j)
    decreases remaining
  {
    if j > 0 {
      EntriesAt(data, off + 15, remaining - 1, j - 1);
      assert off + 15 + 15 * (j - 1) == off + 15 * j;
    }
  }

  /**
    `notification_handler` of the Proxy Positions characteristic: `data[0]`
    raises on an empty notification (the handler catches it); otherwise at
    most `count` entries, as many as fit.
   */
  function ParseProxyPositions(data: seq<byte>): (r: Result<seq<TagPosition>>)
    ensures r.Success? <==> data != []
    ensures r.Failure? ==> r.error == IndexOutOfRange
    ensures r.Success? ==> |r.value| == Min(data[0], (|data| - 1) / 15)
  {
    if data == [] then Failure(IndexOutOfRange)
    else Success(Entries(data, 1, data[0]))
  }

  /** Entry `i` comes from the bytes at `1 + 15 i`: the node id, then x, y, z in metres and the quality. */
  lemma ProxyEntryLayout(data: seq<byte>, i: nat)
    requires ParseProxyPositions(data).Success?
    requires i < |ParseProxyPositions(data).value|
    ensures 16 + 15 * i <= |data|
    ensures ParseProxyPositions(data).value[i] == TagPosition(U16LE(data[1 + 15 * i .. 3 + 15 * i]), PositionAt(data, 3 + 15 * i))
  {
    EntriesAt(data, 1, data[0], i);
  }

  /** The "incomplete data" message is printed exactly when fewer entries than declared were decoded. */
  lemma IncompleteExactlyWhenShort(data: seq<byte>)
    requires data != []
    ensures |ParseProxyPositions(data).value| < data[0] <==> |data| < 1 + 15 * (data[0] as int)
  {
  }

  // ---------------------------------------------------------------- encoder

  /** One entry as a node sends it. */
  datatype RawTagPosition = RawTagPosition(nodeId: nat, position: RawPosition)

  predicate ValidEntry(e: RawTagPosition)
  {
    e.nodeId < TWO_16 && ValidPosition(e.position)
  }

  function EncodeEntries(es: seq<RawTagPosition>): (r: seq<byte>)
    requires forall i :: 0 <= i < |es| ==> ValidEntry(es[i])
    ensures |r| == 15 * |es|
  {
    if es == [] then []
    else
      assert ValidEntry(es[0]);
      LE16(es[0].nodeId) + EncodePosition(es[0].position) + EncodeEntries(es[1..])
  }

  function EncodeProxyPositions(es: seq<RawTagPosition>): (r: seq<byte>)
    requires |es| < 256
    requires forall i :: 0 <= i < |es| ==> ValidEntry(es[i])
    ensures |r| == 1 + 15 * |es| && r[0] == |es|
  {
    [|es|] + EncodeEntries(es)
  }

  lemma {:induction false} EncodedEntryAt(es: seq<RawTagPosition>, j: nat)
    requires forall i :: 0 <= i < |es| ==> ValidEntry(es[i])
    requires j < |es|
    ensures TagPositionAt(EncodeEntries(es), 15 * j) == TagPosition(es[j].nodeId, InMetres(es[j].position))
  {
    assert ValidEntry(es[0]);
    var head := LE16(es[0].nodeId) + EncodePosition(es[0].position);
    var rest := EncodeEntries(es[1..]);
    assert EncodeEntries(es) == head + rest;
    if j == 0 {
      EncodedFirstEntry(es[0], rest);
    } else {
      EncodedEntryAt(es[1..], j - 1);
      TagPositionShift(head, rest, 15 * (j - 1));
      assert 15 + 15 * (j - 1) == 15 * j;
    }
  }

  /** The first 15 bytes of an encoding read back as the entry they encode. */
  lemma EncodedFirstEntry(t: RawTagPosition, rest: seq<byte>)
    requires ValidEntry(t)
    ensures TagPositionAt(LE16(t.nodeId) + EncodePosition(t.position) + rest, 0) == TagPosition(t.nodeId, InMetres(t.position))
  {
    var p := EncodePosition(t.position);
    var e := LE16(t.nodeId) + p + rest;
    assert e[0 .. 2] == LE16(t.nodeId);
    assert e[2 .. 15] == p;
    PositionAtSlice(e, 2);
    PositionRoundTrip(t.position);
    PositionAtSlice(p, 0);
    assert p[0 .. 13] == p;
  }

  /** A layout read inside the second part of a concatenation is read at the shifted offset. */
  lemma TagPositionShift(a: seq<byte>, b: seq<byte>, off: nat)
    requires off + 15 <= |b|
    ensures TagPositionAt(a + b, |a| + off) == TagPositionAt(b, off)
  {
    var c := a + b;
    assert c[|a| + off .. |a| + off + 15] == b[off .. off + 15];
    assert c[|a| + off .. |a| + off + 2] == b[off .. off + 2];
    PositionAtSlice(c, |a| + off + 2);
    PositionAtSlice(b, off + 2);
    assert c[|a| + off + 2 .. |a| + off + 15] == b[off + 2 .. off + 15];
  }

  /** Parsing an encoded notification gives back every entry, in order, in metres. */
  lemma ProxyRoundTrip(es: seq<RawTagPosition>, i: nat)
    requires |es| < 256
    requires forall k :: 0 <= k < |es| ==> ValidEntry(es[k])
    requires i < |es|
    ensures |ParseProxyPositions(EncodeProxyPositions(es)).value| == |es|
    ensures ParseProxyPositions(EncodeProxyPositions(es)).value[i] == TagPosition(es[i].nodeId, InMetres(es[i].position))
  {
    var d := EncodeProxyPositions(es);
    var body := EncodeEntries(es);
    EntriesAt(d, 1, |es|, i);
    TagPositionShift([|es|], body, 15 * i);
    EncodedEntryAt(es, i);
  }
}
