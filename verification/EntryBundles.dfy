/**
 What the log viewer makes of the bytes of an entry bundle.

 An entry bundle is a list of byte strings, each preceded by its length as a big-endian 16-bit number
 (C2SP tlog-tiles, section 'Log Entries').
 */
module EntryBundles {

  type Byte = b: int | 0 <= b < 256

  datatype Failure = Dangling(bytes: nat, at: nat) | Truncated(at: nat, declared: nat, remain: nat)

  datatype Record = Entry(offset: nat, size: nat, body: seq<Byte>) | Error(failure: Failure)

  function EncodeEntry(body: seq<Byte>): seq<Byte>
    requires |body| < 0x1_0000
  {
    [|body| / 256, |body| % 256] + body
  }

  predicate Encodable(bodies: seq<seq<Byte>>) {
    forall i :: 0 <= i < |bodies| ==> |bodies[i]| < 0x1_0000
  }

  function Encode(bodies: seq<seq<Byte>>): seq<Byte>
    requires Encodable(bodies)
  {
    if bodies == [] then [] else EncodeEntry(bodies[0]) + Encode(bodies[1..])
  }

  /** The length declared at an offset: `(bytes[offset] << 8) | bytes[offset + 1]`. */
  function DeclaredSize(bytes: seq<Byte>, offset: nat): nat
    requires offset + 2 <= |bytes|
  {
    var high: int := bytes[offset];
    high * 256 + bytes[offset + 1]
  }

  /** Whether an entry lies at the offset: two length bytes, and as many more as they declare. */
  predicate HasEntry(bytes: seq<Byte>, offset: nat) {
    offset + 2 <= |bytes| && offset + 2 + DeclaredSize(bytes, offset) <= |bytes|
  }

  function EntryAt(bytes: seq<Byte>, offset: nat): Record
    requires HasEntry(bytes, offset)
  {
    var size := DeclaredSize(bytes, offset);
    Entry(offset, size, bytes[offset + 2..offset + 2 + size])
  }

  function EntryEnd(bytes: seq<Byte>, offset: nat): (end: nat)
    requires HasEntry(bytes, offset)
    ensures offset < end <= |bytes|
  {
    offset + 2 + DeclaredSize(bytes, offset)
  }

  /** The records from an offset on. */
  function Parse(bytes: seq<Byte>, offset: nat): seq<Record>
    decreases |bytes| - offset
  {
    if offset >= |bytes| then []
    else if offset + 2 > |bytes| then [Error(Dangling(|bytes| - offset, offset))]
    else if !HasEntry(bytes, offset)
    then [Error(Truncated(offset, DeclaredSize(bytes, offset), |bytes| - (offset + 2)))]
    else [EntryAt(bytes, offset)] + Parse(bytes, EntryEnd(bytes, offset))
  }

  method ParseBundle(bytes: seq<Byte>) returns (records: seq<Record>)
    ensures records == Parse(bytes, 0)
  {
    records := [];
    var offset := 0;
    while offset < |bytes|
      invariant offset <= |bytes|
      invariant records + Parse(bytes, offset) == Parse(bytes, 0)
      decreases |bytes| - offset
    {
      if offset + 2 > |bytes| {
        records := records + [Error(Dangling(|bytes| - offset, offset))];
        return;
      }
      var high: int := bytes[offset];
      var size := high * 256 + bytes[offset + 1];
      var start := offset + 2;
      var end := start + size;
      if end > |bytes| {
        records := records + [Error(Truncated(offset, size, |bytes| - start))];
        return;
      }
      var entry := Entry(offset, size, bytes[start..end]);
      assert entry == EntryAt(bytes, offset);
      assert records + ([entry] + Parse(bytes, end)) == (records + [entry]) + Parse(bytes, end);
      records := records + [entry];
      offset := end;
    }
  }

  function Bodies(records: seq<Record>): seq<seq<Byte>> {
    if records == [] then []
    else (if records[0].Entry? then [records[0].body] else []) + Bodies(records[1..])
  }

  /** The records an encoded bundle should give when it starts at an offset. */
  function Offsets(bodies: seq<seq<Byte>>, offset: nat): seq<Record> {
    if bodies == [] then []
    else [Entry(offset, |bodies[0]|, bodies[0])] + Offsets(bodies[1..], offset + 2 + |bodies[0]|)
  }

  lemma BodiesCons(record: Record, later: seq<Record>)
    requires record.Entry?
    ensures Bodies([record] + later) == [record.body] + Bodies(later)
  {
    assert ([record] + later)[1..] == later;
  }

  /** An entry encoded between other bytes is found. */
  lemma EncodedEntryIsThere(bytes: seq<Byte>, before: seq<Byte>, body: seq<Byte>, after: seq<Byte>)
    requires |body| < 0x1_0000 && bytes == before + EncodeEntry(body) + after
    ensures HasEntry(bytes, |before|) && EntryAt(bytes, |before|) == Entry(|before|, |body|, body)
    ensures EntryEnd(bytes, |before|) == |before + EncodeEntry(body)|
  {
    assert bytes[|before|] == |body| / 256 && bytes[|before| + 1] == |body| % 256;
    assert bytes[|before| + 2..|before| + 2 + |body|] == body;
  }

  lemma Associates<T>(a: seq<T>, b: seq<T>, c: seq<T>)
    ensures a + (b + c) == a + b + c
  {
  }

  /** Whether exactly these entries, one behind the other, fill the bytes from an offset on. */
  predicate Fill(bytes: seq<Byte>, offset: nat, bodies: seq<seq<Byte>>)
    decreases |bodies|
  {
    if bodies == [] then offset == |bytes|
    else
      && HasEntry(bytes, offset) && EntryAt(bytes, offset).body == bodies[0]
      && Fill(bytes, EntryEnd(bytes, offset), bodies[1..])
  }

  lemma EncodedFirst(bytes: seq<Byte>, before: seq<Byte>, bodies: seq<seq<Byte>>, through: seq<Byte>)
    requires Encodable(bodies) && bodies != [] && bytes == before + Encode(bodies)
    requires through == before + EncodeEntry(bodies[0])
    ensures bytes == through + Encode(bodies[1..])
    ensures HasEntry(bytes, |before|) && EntryAt(bytes, |before|).body == bodies[0]
    ensures EntryEnd(bytes, |before|) == |through|
  {
    var entry, after := EncodeEntry(bodies[0]), Encode(bodies[1..]);
    Associates(before, entry, after);
    EncodedEntryIsThere(bytes, before, bodies[0], after);
  }

  lemma {:induction false} EncodedFill(bytes: seq<Byte>, before: seq<Byte>, bodies: seq<seq<Byte>>)
    requires Encodable(bodies) && bytes == before + Encode(bodies)
    ensures Fill(bytes, |before|, bodies)
    decreases |bodies|
  {
    if bodies != [] {
      var through := before + EncodeEntry(bodies[0]);
      EncodedFirst(bytes, before, bodies, through);
      EncodedFill(bytes, through, bodies[1..]);
    }
  }

  lemma {:induction false} FillParses(bytes: seq<Byte>, offset: nat, bodies: seq<seq<Byte>>)
    requires Fill(bytes, offset, bodies)
    ensures Parse(bytes, offset) == Offsets(bodies, offset)
    decreases |bodies|
  {
    if bodies != [] {
      FillParses(bytes, EntryEnd(bytes, offset), bodies[1..]);
    }
  }

  lemma {:induction false} OffsetsHoldBodies(bodies: seq<seq<Byte>>, offset: nat)
    ensures Bodies(Offsets(bodies, offset)) == bodies
    decreases |bodies|
  {
    if bodies != [] {
      var next := offset + 2 + |bodies[0]|;
      OffsetsHoldBodies(bodies[1..], next);
      BodiesCons(Entry(offset, |bodies[0]|, bodies[0]), Offsets(bodies[1..], next));
    }
  }

  /** Parsing an encoded bundle gives every entry at the offset where it lies: none is lost, changed or invented. */
  lemma BundleRoundTrip(bodies: seq<seq<Byte>>)
    requires Encodable(bodies)
    ensures Parse(Encode(bodies), 0) == Offsets(bodies, 0)
    ensures Bodies(Parse(Encode(bodies), 0)) == bodies
  {
    assert [] + Encode(bodies) == Encode(bodies);
    EncodedFill(Encode(bodies), [], bodies);
    FillParses(Encode(bodies), 0, bodies);
    OffsetsHoldBodies(bodies, 0);
  }

  /** Where the entries end: the first offset, from the given one on, at which no entry lies. */
  function TailStart(bytes: seq<Byte>, offset: nat): (start: nat)
    requires offset <= |bytes|
    ensures offset <= start <= |bytes| && !HasEntry(bytes, start)
    decreases |bytes| - offset
  {
    if HasEntry(bytes, offset) then TailStart(bytes, EntryEnd(bytes, offset)) else offset
  }

  lemma EntryEncodesItself(bytes: seq<Byte>, offset: nat)
    requires HasEntry(bytes, offset)
    ensures |EntryAt(bytes, offset).body| < 0x1_0000
    ensures bytes[offset..EntryEnd(bytes, offset)] == EncodeEntry(EntryAt(bytes, offset).body)
  {
  }

  lemma EncodeCons(body: seq<Byte>, bodies: seq<seq<Byte>>)
    requires |body| < 0x1_0000 && Encodable(bodies)
    ensures Encodable([body] + bodies) && Encode([body] + bodies) == EncodeEntry(body) + Encode(bodies)
  {
    assert ([body] + bodies)[1..] == bodies;
  }

  /** On any bytes: the entries found, encoded again, are exactly the bytes before the tail in which no entry begins. */
  lemma {:induction false} ParseCovers(bytes: seq<Byte>, offset: nat)
    requires offset <= |bytes|
    ensures var bodies := Bodies(Parse(bytes, offset));
      Encodable(bodies) && bytes[offset..TailStart(bytes, offset)] == Encode(bodies)
    decreases |bytes| - offset
  {
    if HasEntry(bytes, offset) {
      var entry, end := EntryAt(bytes, offset), EntryEnd(bytes, offset);
      ParseCovers(bytes, end);
      EntryEncodesItself(bytes, offset);
      BodiesCons(entry, Parse(bytes, end));
      EncodeCons(entry.body, Bodies(Parse(bytes, end)));
      Slices(bytes, offset, end, TailStart(bytes, offset));
    } else {
      assert forall r: Record :: [r][1..] == [];
    }
  }

  lemma Slices<T>(s: seq<T>, a: nat, b: nat, c: nat)
    requires a <= b <= c <= |s|
    ensures s[a..c] == s[a..b] + s[b..c]
  {
  }

  /** There is an error exactly if a tail is left, and it is a single one, the last record,
      and names the place where the tail begins. */
  lemma {:induction false} OneErrorLast(bytes: seq<Byte>, offset: nat)
    requires offset <= |bytes|
    ensures var records := Parse(bytes, offset);
      && (forall i :: 0 <= i < |records| - 1 ==> records[i].Entry?)
      && (records != [] && records[|records| - 1].Error? <==> TailStart(bytes, offset) < |bytes|)
      && (TailStart(bytes, offset) < |bytes| ==> records[|records| - 1].failure.at == TailStart(bytes, offset))
    decreases |bytes| - offset
  {
    if HasEntry(bytes, offset) {
      OneErrorLast(bytes, EntryEnd(bytes, offset));
    }
  }

  /** What the error says of the tail: a single byte dangles, and otherwise the declared bytes and those that remain. */
  lemma {:induction false} TailIsNamed(bytes: seq<Byte>, offset: nat)
    requires offset <= |bytes| && TailStart(bytes, offset) < |bytes|
    ensures var at, records := TailStart(bytes, offset), Parse(bytes, offset);
      && records != []
      && (at + 1 == |bytes| ==> records[|records| - 1] == Error(Dangling(1, at)))
      && (at + 1 < |bytes| ==>
        var high: int, low: int := bytes[at], bytes[at + 1];
        && records[|records| - 1] == Error(Truncated(at, 256 * high + low, |bytes| - at - 2))
        && 256 * high + low > |bytes| - at - 2)
    decreases |bytes| - offset
  {
    if HasEntry(bytes, offset) {
      TailIsNamed(bytes, EntryEnd(bytes, offset));
    }
  }
}
