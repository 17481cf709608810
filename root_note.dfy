/**
 * Selection of the chord's root note from a block hash: the hash of the
 * hash string, reduced by JavaScript `%` against the five-entry note table.
 */
module RootNote {
  import opened JsNumber
  import opened StringHash

  datatype Option<T> = None | Some(value: T)

  type Note = string

  /** `rootNotes`, in table order. */
  const RootNotes: seq<Note> := ["C3", "F3", "D3", "G3", "A3"]

  /**
   * `header.hash.toString().hash() % this.rootNotes.length`. JavaScript `%`
   * keeps the sign of the hash, and no absolute value is taken.
   */
  function RootIndex(blockHash: JsString): (i: int)
    ensures -|RootNotes| < i < |RootNotes|
    ensures i < 0 ==> PolyHash(blockHash) < 0
    ensures 0 <= i <==> PolyHash(blockHash) >= 0 || PolyHash(blockHash) % |RootNotes| == 0
  {
    var h := PolyHash(blockHash);
    RemFiveZero(h);
    JsRem(h, |RootNotes|)
  }

  /** For a negative dividend the truncating remainder is zero exactly when the Euclidean one is. */
  lemma RemFiveZero(h: int)
    ensures JsRem(h, 5) == 0 <==> h % 5 == 0
    ensures JsRem(Abs(h), 5) == 0 <==> h % 5 == 0
  {
    var i := JsRem(h, 5);
    assert h == JsQuot(h, 5) * 5 + i;
    var j := JsRem(Abs(h), 5);
    assert Abs(h) == JsQuot(Abs(h), 5) * 5 + j;
  }

  /**
   * `this.rootNotes[rootIndex]` as written: a negative index reads
   * `undefined`, modelled as None.
   */
  function RootNoteAsWritten(blockHash: JsString): (n: Option<Note>)
    ensures n.Some? <==> RootIndex(blockHash) >= 0
    ensures n.Some? ==> n.value == RootNotes[RootIndex(blockHash)]
  {
    var i := RootIndex(blockHash);
    if 0 <= i then Some(RootNotes[i]) else None
  }

  /** The block hash "0xabcdef", as UTF-16 code units. */
  const SampleHash: JsString := [48, 120, 97, 98, 99, 100, 101, 102]

  /** "0xabcdef" hashes to -247609173, whose JavaScript remainder by 5 is -3: no note is found. */
  lemma NegativeIndexExample()
    ensures RootIndex(SampleHash) == -3
    ensures RootNoteAsWritten(SampleHash) == None
  {
    SampleHashValue();
    assert JsRem(-247609173, 5) == -3;
  }

  lemma SampleHashValue()
    ensures PolyHash(SampleHash) == -247609173
  {
    SampleMiddleValue();
    Extend([48, 120, 97, 98, 99, 100], 101, 1488008842, -1116366053);
    Extend([48, 120, 97, 98, 99, 100, 101], 102, -1116366053, -247609173);
    assert [48, 120, 97, 98, 99, 100, 101] + [102] == SampleHash;
  }

  /** "0xab" hashes to 1548393. */
  lemma SamplePrefixValue()
    ensures PolyHash([48, 120, 97, 98]) == 1548393
  {
    Extend([], 48, 0, 48);
    Extend([48], 120, 48, 1608);
    Extend([48, 120], 97, 1608, 49945);
    Extend([48, 120, 97], 98, 49945, 1548393);
  }

  /** "0xabcd" hashes to 1488008842. */
  lemma SampleMiddleValue()
    ensures PolyHash([48, 120, 97, 98, 99, 100]) == 1488008842
  {
    SamplePrefixValue();
    Extend([48, 120, 97, 98], 99, 1548393, 48000282);
    Extend([48, 120, 97, 98, 99], 100, 48000282, 1488008842);
  }

  /** One step of the worked example: the hash of a prefix and the step law give the next hash. */
  lemma Extend(p: JsString, c: CodeUnit, h: int, h': int)
    requires PolyHash(p) == h
    requires ToInt32(31 * h + c) == h'
    ensures PolyHash(p + [c]) == h'
  {
    HashStep(p, c);
    assert ToInt32(31 * h + c) == h';
  }

  /** The intended index: the absolute value of the hash, reduced modulo the table length. */
  function RootIndexCorrected(blockHash: JsString): (i: nat)
    ensures i < |RootNotes|
    ensures PolyHash(blockHash) >= 0 ==> i == RootIndex(blockHash)
  {
    JsRem(Abs(PolyHash(blockHash)), |RootNotes|)
  }

  /** The intended note: always an entry of the table. */
  function RootNoteCorrected(blockHash: JsString): (n: Note)
    ensures n in RootNotes
    ensures RootNoteAsWritten(blockHash).Some? ==> RootNoteAsWritten(blockHash).value == n
  {
    RemFiveZero(PolyHash(blockHash));
    RootNotes[RootIndexCorrected(blockHash)]
  }
}
