/** Reading back a log that was cut off anywhere gives exactly the records that survived. */
module LogRoundTrip {
  import opened Wrappers
  import opened Coding
  import opened Log

  /** The bytes of a file from `p` on agree with `bytes` as far as the file reaches. */
  ghost predicate Holds(file: Bytes, p: nat, bytes: Bytes) {
    p <= |file| && forall i :: 0 <= i < |bytes| && p + i < |file| ==> file[p + i] == bytes[i]
  }

  lemma PhysicalField(t: Byte, payload: Bytes)
    requires |payload| < 0x1_0000
    ensures Physical(t, payload)[..4] == Fixed(StoredCrc([t] + payload), 4)
    ensures Physical(t, payload)[4] == |payload| % 256 && Physical(t, payload)[5] == |payload| / 256 && Physical(t, payload)[6] == t
    ensures Physical(t, payload)[HEADER_SIZE..] == payload
    ensures Physical(t, payload)[6..] == [t] + payload
  {
    hide StoredCrc;
  }

  /** A whole fragment is read back. */
  lemma FragmentReads(file: Bytes, p: nat, t: Byte, payload: Bytes, checksum: bool)
    requires |payload| < 0x1_0000 && SkipTrailer(p) % BLOCK_SIZE + HEADER_SIZE + |payload| <= BLOCK_SIZE
    requires FULL_TYPE <= t <= LAST_TYPE
    requires SkipTrailer(p) + HEADER_SIZE + |payload| <= |file| && Holds(file, SkipTrailer(p), Physical(t, payload))
    ensures PhysicalAt(file, p, checksum) == Read(t, payload, SkipTrailer(p) + HEADER_SIZE + |payload|, [])
  {
    hide Physical, CrcMatches, SkipTrailer, LengthField;
    var q := SkipTrailer(p);
    HeaderReads(file, q, t, payload);
    assert file[q..q + HEADER_SIZE + |payload|] == Physical(t, payload);
    CrcHolds(file, q, t, payload);
    assert file[q + HEADER_SIZE..q + HEADER_SIZE + |payload|] == payload by {
      PhysicalField(t, payload);
      assert file[q + HEADER_SIZE..q + HEADER_SIZE + |payload|] == Physical(t, payload)[HEADER_SIZE..];
    }
  }

  /** A fragment that is cut short reads as the end of the file. */
  lemma TornFragment(file: Bytes, p: nat, t: Byte, payload: Bytes, checksum: bool)
    requires |payload| < 0x1_0000 && SkipTrailer(p) % BLOCK_SIZE + HEADER_SIZE + |payload| <= BLOCK_SIZE
    requires p <= |file| < SkipTrailer(p) + HEADER_SIZE + |payload|
    requires SkipTrailer(p) <= |file| ==> Holds(file, SkipTrailer(p), Physical(t, payload))
    ensures PhysicalAt(file, p, checksum) == Read(EOF, [], |file|, [])
  {
    hide Physical, CrcMatches, SkipTrailer, LengthField;
    if SkipTrailer(p) + HEADER_SIZE <= |file| {
      HeaderReads(file, SkipTrailer(p), t, payload);
    }
  }

  lemma HeaderReads(file: Bytes, q: nat, t: Byte, payload: Bytes)
    requires |payload| < 0x1_0000
    requires q + HEADER_SIZE <= |file| && Holds(file, q, Physical(t, payload))
    ensures LengthField(file[q + 4], file[q + 5]) == |payload|
    ensures file[q + 6] == t
  {
    hide Physical;
    PhysicalField(t, payload);
    var image := Physical(t, payload);
    assert file[q + 4] == image[4] && file[q + 5] == image[5] && file[q + 6] == image[6];
  }

  lemma CrcHolds(file: Bytes, q: nat, t: Byte, payload: Bytes)
    requires |payload| < 0x1_0000 && q + HEADER_SIZE + |payload| <= |file|
    requires file[q..q + HEADER_SIZE + |payload|] == Physical(t, payload)
    ensures CrcMatches(file, q, |payload|)
  {
    hide Physical, StoredCrc, CrcOf, Crc.Value, CrcMatches;
    PhysicalField(t, payload);
    assert file[q..q + 4] == Physical(t, payload)[..4];
    assert file[q + 6..q + HEADER_SIZE + |payload|] == Physical(t, payload)[6..];
    Widths();
    FixedRoundTrip(StoredCrc([t] + payload), 4);
    StoredCrcReadsBack([t] + payload, StoredCrc([t] + payload));
    CrcMatchesMeans(file, q, |payload|);
  }

  /** The first fragment of a record, its place and what follows it. */
  lemma EmitParts(file: Bytes, p: nat, data: Bytes, begin: bool)
    requires Holds(file, p, Emit(p % BLOCK_SIZE, data, begin))
    ensures var n := Taken(p % BLOCK_SIZE, |data|);
            var end := n == |data|;
            var q := SkipTrailer(p);
            var next := q + HEADER_SIZE + n;
            var rest := if end then [] else Emit(next % BLOCK_SIZE, data[n..], false);
            && (q <= |file| ==> Holds(file, q, Physical(FragmentType(begin, end), data[..n])))
            && (next <= |file| ==> Holds(file, next, rest))
            && p + |Emit(p % BLOCK_SIZE, data, begin)| == next + |rest|
            && q % BLOCK_SIZE + HEADER_SIZE + n <= BLOCK_SIZE
            && n < 0x1_0000
  {
    hide Physical, Emit, SkipTrailer;
    var off := p % BLOCK_SIZE;
    var n := Taken(off, |data|);
    var q := SkipTrailer(p);
    var next := q + HEADER_SIZE + n;
    EmitUnfold(off, data, begin);
    assert next % BLOCK_SIZE == (Start(off) + HEADER_SIZE + n) % BLOCK_SIZE by { SameOffset(q, Start(off), HEADER_SIZE + n); }
    var rest := if n == |data| then [] else Emit(next % BLOCK_SIZE, data[n..], false);
    var zeros, image := Zeros(Trailer(off)), Physical(FragmentType(begin, n == |data|), data[..n]);
    assert zeros + image + rest == zeros + (image + rest);
    HoldsParts(file, p, zeros, image + rest);
    if q <= |file| {
      HoldsParts(file, q, image, rest);
    }
  }

  lemma SameOffset(q: nat, s: nat, k: nat)
    requires q % BLOCK_SIZE == s
    ensures (q + k) % BLOCK_SIZE == (s + k) % BLOCK_SIZE
  {
  }

  lemma HoldsParts(file: Bytes, p: nat, a: Bytes, b: Bytes)
    requires Holds(file, p, a + b)
    ensures Holds(file, p, a)
    ensures p + |a| <= |file| ==> Holds(file, p + |a|, b)
  {
    forall i | 0 <= i < |a| && p + i < |file|
      ensures file[p + i] == a[i]
    {
      assert (a + b)[i] == a[i];
    }
    forall i | 0 <= i < |b| && p + |a| + i < |file|
      ensures file[p + |a| + i] == b[i]
    {
      assert (a + b)[|a| + i] == b[i];
    }
  }

  /** What is left of a record is read back whole if the file holds all of it, and else not at all. */
  lemma {:induction false} EmitReads(file: Bytes, p: nat, data: Bytes, begin: bool, scratch: Bytes, checksum: bool)
    requires Holds(file, p, Emit(p % BLOCK_SIZE, data, begin)) && (begin ==> scratch == [])
    ensures var end := p + |Emit(p % BLOCK_SIZE, data, begin)|;
            var r := ReadFrom(file, p, checksum, scratch, !begin);
            if end <= |file| then r == Logical(Some(scratch + data), end, []) else r.record == None && r.drops == []
    decreases |data|, if Start(p % BLOCK_SIZE) + HEADER_SIZE == BLOCK_SIZE then 1 else 0
  {
    hide Physical, Emit, PhysicalAt, SkipTrailer, ReadFrom, Handle;
    var n := Taken(p % BLOCK_SIZE, |data|);
    var t := FragmentType(begin, n == |data|);
    var next := SkipTrailer(p) + HEADER_SIZE + n;
    EmitParts(file, p, data, begin);
    ReadFromUnfold(file, p, checksum, scratch, !begin);
    if |file| < next {
      TornFragment(file, p, t, data[..n], checksum);
      assert Handle(EOF, [], scratch, !begin) == Done(None, []) by { EndHandled(scratch, !begin); }
    } else {
      FragmentReads(file, p, t, data[..n], checksum);
      FragmentHandled(begin, n == |data|, data[..n], scratch);
      if n < |data| {
        EmitReads(file, next, data[n..], false, scratch + data[..n], checksum);
        assert scratch + data[..n] + data[n..] == scratch + data;
      } else {
        assert data[..n] == data;
      }
    }
  }

  lemma FragmentHandled(begin: bool, end: bool, fragment: Bytes, scratch: Bytes)
    requires begin ==> scratch == []
    ensures Handle(FragmentType(begin, end), fragment, scratch, !begin) ==
            if end then Done(Some(scratch + fragment), []) else More(scratch + fragment, true, [])
  {
    assert begin ==> scratch + fragment == fragment;
  }

  lemma EndHandled(scratch: Bytes, inFragment: bool)
    ensures Handle(EOF, [], scratch, inFragment) == Done(None, [])
  {
  }

  /** How many records survive when the file is cut off at `t`: those whose last byte lies before it. */
  function Survived(records: seq<Bytes>, t: nat): (k: nat)
    ensures k <= |records|
  {
    if records == [] || |Written(records)| <= t then |records| else Survived(records[..|records| - 1], t)
  }

  lemma {:induction false} WrittenPrefix(records: seq<Bytes>, i: nat)
    requires i <= |records|
    ensures Written(records[..i]) <= Written(records)
  {
    hide Emit;
    if i < |records| {
      var n := |records| - 1;
      WrittenPrefix(records[..n], i);
      assert records[..n][..i] == records[..i];
    } else {
      assert records[..i] == records;
    }
  }

  /** A record survives exactly if the file reaches its end. */
  lemma {:induction false} SurvivedExactly(records: seq<Bytes>, t: nat, i: nat)
    requires i < |records|
    ensures i < Survived(records, t) <==> |Written(records[..i + 1])| <= t
  {
    hide Emit, Written;
    var n := |records| - 1;
    WrittenPrefix(records, i + 1);
    if |Written(records)| > t {
      if i < n {
        SurvivedExactly(records[..n], t, i);
        assert records[..n][..i + 1] == records[..i + 1];
      } else {
        assert records[..i + 1] == records;
      }
    }
  }

  lemma {:induction false} ReadsOn(records: seq<Bytes>, t: nat, i: nat, checksum: bool)
    requires t <= |Written(records)| && i <= Survived(records, t)
    requires |Written(records[..i])| <= t
    ensures ReadAll(Written(records)[..t], |Written(records[..i])|, checksum) == (records[i..Survived(records, t)], [])
    decreases Survived(records, t) - i
  {
    hide ReadFrom, Emit, PhysicalAt, Written;
    var file, p := Written(records)[..t], |Written(records[..i])|;
    var k := Survived(records, t);
    if i == |records| {
      assert records[..i] == records;
      ReadFromUnfold(file, p, checksum, [], false);
      PhysicalAtEnd(file, p, checksum);
    } else {
      SurvivedExactly(records, t, i);
      RecordHeld(records, t, i);
      EmitReads(file, p, records[i], true, [], checksum);
      assert [] + records[i] == records[i];
      if i < k {
        ReadsOn(records, t, i + 1, checksum);
        var rest := ReadAll(file, |Written(records[..i + 1])|, checksum);
        var none: seq<Drop> := [];
        assert ReadAll(file, p, checksum) == ([records[i]] + rest.0, none + rest.1);
        assert none + rest.1 == rest.1;
        assert records[i..k] == [records[i]] + records[i + 1..k];
      } else {
        assert records[i..k] == [];
      }
    }
  }

  lemma RecordHeld(records: seq<Bytes>, t: nat, i: nat)
    requires i < |records| && |Written(records[..i])| <= t <= |Written(records)|
    ensures var p := |Written(records[..i])|;
            var image := Emit(p % BLOCK_SIZE, records[i], true);
            Holds(Written(records)[..t], p, image) && |Written(records[..i + 1])| == p + |image|
  {
    hide Emit;
    var p := |Written(records[..i])|;
    var image := Emit(p % BLOCK_SIZE, records[i], true);
    WrittenPrefix(records, i + 1);
    assert records[..i + 1][..i] == records[..i];
    assert Written(records[..i + 1]) == Written(records[..i]) + image;
    forall k | 0 <= k < |image| && p + k < t
      ensures Written(records)[..t][p + k] == image[k]
    {
      assert Written(records)[p + k] == Written(records[..i + 1])[p + k];
    }
  }

  lemma NothingWritten()
    ensures Written([]) == []
  {
  }

  /** The log round trip: for any records (empty ones and ones longer than a block included) and any
      point at which the file is cut off, reading from offset 0 returns exactly the records whose last
      byte survived, in order, and reports no corruption. */
  lemma TornLogReadsBack(records: seq<Bytes>, t: nat, checksum: bool)
    requires t <= |Written(records)|
    ensures ReadAll(Written(records)[..t], 0, checksum) == (records[..Survived(records, t)], [])
    ensures t == |Written(records)| ==> Survived(records, t) == |records|
  {
    hide ReadAll, Emit, Written;
    assert Written([]) == [] by { NothingWritten(); }
    assert records[..0] == [];
    ReadsOn(records, t, 0, checksum);
    assert records[0..Survived(records, t)] == records[..Survived(records, t)];
  }
}
