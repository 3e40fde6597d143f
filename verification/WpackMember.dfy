/** A whole `wpack` member inside a file: the table of code lengths, then the encoded text. */
module WpackMember {
  import opened Wrappers
  import opened Bits
  import opened BitStream
  import opened ShannonCode
  import opened CodeWords
  import opened CodeLengths
  import opened Lzss
  import opened WpackStream
  import opened WpackEncode
  import opened Wunpack

  /** The code lengths the table entries spell. */
  function Spelled(entries: seq<byte>): seq<nat> {
    if entries == [] then [] else Spelled(entries[..|entries| - 1]) + Entries(entries[|entries| - 1])
  }

  /** The table as it stands in the file: the entry count less one, and the entries. */
  function TableBytes(entries: seq<byte>): seq<byte>
    requires 1 <= |entries| <= 256
  {
    [|entries| - 1] + entries
  }

  lemma {:induction false} EntriesRead(data: seq<byte>, at: nat, entries: seq<byte>)
    requires forall i | 0 <= i < |entries| :: ByteAt(data, at + i) == entries[i]
    ensures Flatten(data, at, |entries|) == Spelled(entries)
  {
    hide Entries;
    if entries != [] {
      EntriesRead(data, at, entries[..|entries| - 1]);
    }
  }

  /** The decoder reads the lengths that are spelled, and stops behind the table. */
  lemma TableReads(head: seq<byte>, entries: seq<byte>, tail: seq<byte>)
    requires 1 <= |entries| <= 256
    ensures var data := head + TableBytes(entries) + tail;
            Lengths(data, |head|) == Spelled(entries) && TableEnd(data, |head|) == |head| + |TableBytes(entries)|
  {
    hide Flatten, Spelled;
    var data := head + TableBytes(entries) + tail;
    assert ByteAt(data, |head|) == |entries| - 1;
    EntriesRead(data, |head| + 1, entries);
  }

  /** What an encoder that knows the decoder's sort puts into the file. */
  ghost predicate Encoded(entries: seq<byte>, order: seq<nat>, toks: seq<Token>) {
    var flat := Spelled(entries);
    && 1 <= |entries| <= 256 && Usable(flat) && SortedByLength(order, Coded(flat), flat)
    && (forall k | 0 <= k < |order| :: order[k] < |flat|)
    && Aligned(LensOf(Numbered(order), flat))
    && (forall i | 0 <= i < |toks| :: Encodable(toks[i], Numbered(order)))
  }

  ghost function MemberBits(entries: seq<byte>, order: seq<nat>, toks: seq<Token>): seq<bool>
    requires Encoded(entries, order, toks)
  {
    Encode(toks, Numbered(order), LensOf(Numbered(order), Spelled(entries)))
  }

  ghost function MemberBytes(entries: seq<byte>, order: seq<nat>, toks: seq<Token>): seq<byte>
    requires Encoded(entries, order, toks)
  {
    TableBytes(entries) + Pack(MemberBits(entries, order, toks))
  }

  /** The member of the tokens `toks` stands at byte `addr` of the file. */
  ghost predicate MemberAt(data: seq<byte>, addr: nat, entries: seq<byte>, order: seq<nat>, toks: seq<Token>) {
    && Encoded(entries, order, toks)
    && exists head, tail :: |head| == addr && data == head + MemberBytes(entries, order, toks) + tail
  }

  lemma Regroup(head: seq<byte>, a: seq<byte>, b: seq<byte>, tail: seq<byte>)
    ensures head + (a + b) + tail == head + a + (b + tail) == (head + a) + b + tail
  {
  }

  lemma MemberParts(data: seq<byte>, addr: nat, entries: seq<byte>, order: seq<nat>, toks: seq<Token>)
    returns (head: seq<byte>, tail: seq<byte>)
    requires MemberAt(data, addr, entries, order, toks)
    ensures Encoded(entries, order, toks) && 1 <= |entries| <= 256 && |head| == addr
    ensures var packed := Pack(MemberBits(entries, order, toks));
            data == head + TableBytes(entries) + (packed + tail) == (head + TableBytes(entries)) + packed + tail
  {
    hide Pack, MemberBits, TableBytes;
    head, tail :| |head| == addr && data == head + MemberBytes(entries, order, toks) + tail;
    Regroup(head, TableBytes(entries), Pack(MemberBits(entries, order, toks)), tail);
  }

  lemma MemberTable(data: seq<byte>, addr: nat, entries: seq<byte>, order: seq<nat>, toks: seq<Token>)
    requires MemberAt(data, addr, entries, order, toks)
    ensures 1 <= |entries| <= 256 && Usable(Lengths(data, addr))
    ensures Lengths(data, addr) == Spelled(entries) && TableEnd(data, addr) == addr + |TableBytes(entries)|
  {
    hide Pack, MemberBits, Lengths, TableEnd, MemberAt;
    var head, tail := MemberParts(data, addr, entries, order, toks);
    TableReads(head, entries, Pack(MemberBits(entries, order, toks)) + tail);
  }

  /** With the tables of its own code, a member unpacks to its text: the first `need` bytes of what its tokens
      make, where the last of them may make more. */
  lemma MemberUnpacks(t: Tables, data: seq<byte>, addr: nat, entries: seq<byte>, order: seq<nat>, toks: seq<Token>, need: nat)
    requires MemberAt(data, addr, entries, order, toks) && Encoded(entries, order, toks) && need <= TotalSize(toks)
    requires Shaped(t) && HasTables(t, Numbered(order), LensOf(Numbered(order), Spelled(entries)))
    ensures AllValid(toks) && |Expand(Blank(), toks)| >= STRBUF + need
    ensures Unpacked(t, data, 8 * TableEnd(data, addr), Blank(), need) == Ok(Expand(Blank(), toks)[STRBUF..STRBUF + need])
  {
    hide MemberAt, TableBytes, TableEnd, Pack, Encode, Unpacked, HasTables, Shaped, Aligned, LongestFirst, Usable, SortedByLength,
      Spelled, Expand, TotalSize, ValidToken, Encodable, Numbered, LensOf, AllValid, Coded;
    var head, tail := MemberParts(data, addr, entries, order, toks);
    MemberTable(data, addr, entries, order, toks);
    var syms, lens := Numbered(order), LensOf(Numbered(order), Spelled(entries));
    AlignedFits(lens);
    RoundTrip(t, syms, lens, toks, need, head + TableBytes(entries), tail);
  }

  lemma MemberIsEncoded(data: seq<byte>, addr: nat, entries: seq<byte>, order: seq<nat>, toks: seq<Token>)
    requires MemberAt(data, addr, entries, order, toks)
    ensures Encoded(entries, order, toks) && (forall k | 0 <= k < |order| :: order[k] < |Spelled(entries)|)
  {
  }

  /** Unpacks the member at `addr`, as the archive's directory says: its text is what comes out, as many bytes as
      the directory says it has. */
  method Extract(data: seq<byte>, addr: nat, length: nat, order: seq<nat>) returns (r: Result<seq<byte>, Error>)
    requires Usable(Lengths(data, addr)) ==> SortedByLength(order, Coded(Lengths(data, addr)), Lengths(data, addr))
    ensures forall entries, toks | MemberAt(data, addr, entries, order, toks) && TotalSize(toks) >= length ::
              && AllValid(toks) && |Expand(Blank(), toks)| >= STRBUF + length
              && r == Ok(Expand(Blank(), toks)[STRBUF..STRBUF + length])
  {
    hide MemberAt, HasTables, Shaped, Lengths, Usable, SortedByLength, Coded, Unpacked, Numbered, LensOf, Expand, TotalSize, AllValid, Complete, TableEnd, Encoded;
    var dec := new Dec(data, addr);
    r := dec.Run(length, order);
    forall entries, toks | MemberAt(data, addr, entries, order, toks) && TotalSize(toks) >= length
      ensures AllValid(toks) && |Expand(Blank(), toks)| >= STRBUF + length
      ensures r == Ok(Expand(Blank(), toks)[STRBUF..STRBUF + length])
    {
      MemberTable(data, addr, entries, order, toks);
      MemberIsEncoded(data, addr, entries, order, toks);
      MemberUnpacks(dec.Code(), data, addr, entries, order, toks, length);
    }
  }

  lemma OneLetterTable()
    ensures Spelled([192, 0]) == Repeat(65, 0) + [1] && Coded(Repeat(65, 0) + [1]) == [65]
    ensures Usable(Repeat(65, 0) + [1])
  {
    var gap := Repeat(65, 0);
    SpelledTwo(192, 0);
    assert Entries(192) == gap;
    assert Entries(0) == [1] by {
      assert Repeat(0, 1) == [];
    }
    hide Coded, Repeat, Spelled, Entries;
    assert (gap + [1])[65] == 1;
    CodedSkip([], 65);
    assert [] + gap == gap;
    CodedPush(gap, 1);
  }

  lemma SpelledTwo(x: byte, y: byte)
    ensures Spelled([x, y]) == Entries(x) + Entries(y)
  {
    hide Entries;
    assert [x, y][..1] == [x] && [x][..0] == [];
    assert Spelled([x]) == [] + Entries(x) == Entries(x);
  }

  /** There are such members, of codes that are not complete too: the letter A, any number of times, behind a
      table that gives it a code of one bit and no other symbol one. */
  lemma OneLetterMember(n: nat)
    ensures Encoded([192, 0], [65], seq(n, _ => Literal(65)))
  {
    hide Coded, Spelled, Repeat, Aligned, Entries, Usable;
    OneLetterTable();
    var flat := Repeat(65, 0) + [1];
    assert flat[65] == 1;
    assert Numbered([65]) == [65] && LensOf([65], flat) == [1];
    LoneSymbolIsAligned();
  }
  /** Every list of lengths up to 16 is what some entries spell: one entry a symbol is enough. */
  lemma {:induction false} EveryListIsSpelled(flat: seq<nat>) returns (entries: seq<byte>)
    requires forall s | 0 <= s < |flat| :: flat[s] <= 16
    ensures |entries| == |flat| && Spelled(entries) == flat
  {
    hide Entries;
    if flat == [] {
      entries := [];
    } else {
      var n := |flat| - 1;
      var front := EveryListIsSpelled(flat[..n]);
      var e: byte := if flat[n] == 0 then 128 else flat[n] - 1;
      entries := front + [e];
      assert Entries(e) == [flat[n]] by {
        EntrySpells(1, if flat[n] == 0 then 1 else flat[n]);
      }
      assert entries[..n] == front && flat == flat[..n] + [flat[n]];
    }
  }

  // ---- every text has a member ----

  /** The table that gives each of the 256 byte values a code of eight bits. */
  function ByteTable(n: nat): (entries: seq<byte>)
    ensures |entries| == n
  {
    seq(n, _ => 0x77)
  }

  function Literals(text: seq<byte>): (toks: seq<Token>)
    ensures |toks| == |text| && forall i | 0 <= i < |text| :: toks[i] == Literal(text[i])
  {
    seq(|text|, i requires 0 <= i < |text| => Literal(text[i]))
  }

  lemma {:induction false} ByteTableSpells(n: nat)
    ensures Spelled(ByteTable(n)) == Repeat(8 * n, 8)
  {
    hide Entries, Repeat;
    if n > 0 {
      ByteTableSpells(n - 1);
      assert ByteTable(n)[..n - 1] == ByteTable(n - 1);
      assert Entries(0x77) == Repeat(8, 8) by {
        EntryOfRun();
      }
      assert Repeat(8 * n, 8) == Repeat(8 * (n - 1), 8) + Repeat(8, 8);
    }
  }

  lemma EntryOfRun()
    ensures Entries(0x77) == Repeat(8, 8)
  {
    hide Repeat;
  }

  lemma {:induction false} AllCoded(n: nat)
    ensures |Coded(Repeat(n, 8))| == n
  {
    hide Coded;
    if n == 0 {
      CodedPush([], 8);
    } else {
      AllCoded(n - 1);
      CodedPush(Repeat(n - 1, 8), 8);
    }
  }

  lemma {:induction false} EvenStarts(lens: seq<nat>, k: nat)
    requires LongestFirst(lens) && k <= |lens| && forall i | 0 <= i < |lens| :: lens[i] == 8
    ensures Start(lens, k) == 256 * k
  {
    if k > 0 {
      EvenStarts(lens, k - 1);
      Pow2Values();
    }
  }

  lemma InNumbered(order: seq<nat>, idx: seq<nat>, b: nat)
    requires multiset(order) == multiset(idx) && b in idx
    ensures b in Numbered(order)
  {
    assert b in multiset(idx) && b in multiset(order);
    var i :| 0 <= i < |order| && order[i] == b;
    assert Numbered(order)[|order| - 1 - i] == b;
  }

  lemma EvenIsComplete(lens: seq<nat>)
    requires |lens| == 256 && forall i | 0 <= i < |lens| :: lens[i] == 8
    ensures Complete(lens)
  {
    EvenStarts(lens, 256);
  }

  /** However the sort breaks the ties. */
  lemma ByteCode(order: seq<nat>)
    requires SortedByLength(order, Coded(Repeat(256, 8)), Repeat(256, 8))
    ensures Complete(LensOf(Numbered(order), Repeat(256, 8))) && Usable(Repeat(256, 8))
    ensures forall b: byte :: b in Numbered(order)
  {
    var flat := Repeat(256, 8);
    AllCoded(256);
    SortedElements(order, Coded(flat), flat);
    hide Coded, Repeat, Complete;
    assert flat[0] != 0;
    EvenIsComplete(LensOf(Numbered(order), flat));
    forall b: byte
      ensures b in Numbered(order)
    {
      assert flat[b] == 8;
      InNumbered(order, Coded(flat), b);
    }
  }

  lemma {:induction false} LiteralsExpand(h: seq<byte>, text: seq<byte>)
    requires |h| >= STRBUF
    ensures AllValid(Literals(text)) && Expand(h, Literals(text)) == h + text && TotalSize(Literals(text)) == |text|
    decreases text
  {
    if text == [] {
      assert h + text == h;
    } else {
      LiteralsExpand(h + [text[0]], text[1..]);
      assert Literals(text)[1..] == Literals(text[1..]);
      assert h + [text[0]] + text[1..] == h + text;
    }
  }

  lemma LiteralsEncodable(text: seq<byte>, syms: seq<nat>)
    requires forall b: byte :: b in syms
    ensures forall i | 0 <= i < |text| :: Encodable(Literals(text)[i], syms)
  {
  }

  /** Every text has a member, of a complete code, that makes exactly the text. */
  lemma EveryTextHasMember(text: seq<byte>, order: seq<nat>)
    requires SortedByLength(order, Coded(Spelled(ByteTable(32))), Spelled(ByteTable(32)))
    ensures Encoded(ByteTable(32), order, Literals(text)) && Complete(LensOf(Numbered(order), Spelled(ByteTable(32))))
    ensures AllValid(Literals(text)) && TotalSize(Literals(text)) == |text|
    ensures Expand(Blank(), Literals(text)) == Blank() + text
  {
    hide Coded, Repeat, Spelled, Aligned, Complete, Expand, TotalSize, Usable, Encodable, AllValid, Literals, Numbered, LensOf,
      Blank, ByteTable;
    ByteTableSpells(32);
    ByteCode(order);
    LiteralsExpand(Blank(), text);
    LiteralsEncodable(text, Numbered(order));
    CompleteIsAligned(LensOf(Numbered(order), Spelled(ByteTable(32))));
  }

  // ---- a member that fails ----

  /** One symbol with a code of 16 bits leaves windows past the end of the list, and a text of ones runs into them. */
  lemma LoneLongSymbolFaults(t: Tables)
    requires Shaped(t) && HasTables(t, [0], [16])
    ensures Overruns(t) && Unpacked(t, [0, 15, 255, 255], 16, Blank(), 1) == Err(IndexError)
  {
    assert Start([16], 1) == Start([16], 0) + 1;
    OverrunsIffRoom(t, [0], [16]);
    hide HasTables, Overruns, Unpacked;
    OnesFault(t, [0], [16], [0, 15], [], Blank(), 1);
    assert [0, 15] + [255, 255] + [] == [0, 15, 255, 255];
  }

  /** The table of that code, as it stands in a file. */
  lemma LoneLongSymbolTable()
    ensures var data: seq<byte> := [0, 15, 255, 255];
            && Lengths(data, 0) == [16] && TableEnd(data, 0) == 2 && Usable([16])
            && SortedByLength([0], Coded([16]), [16]) && Numbered([0]) == [0] && LensOf([0], [16]) == [16]
  {
    hide Lengths, TableEnd, Spelled;
    LongEntry();
    TableReads([], [15], [255, 255]);
    assert [] + TableBytes([15]) + [255, 255] == [0, 15, 255, 255];
    OneCoded();
  }

  lemma OneCoded()
    ensures Usable([16]) && SortedByLength([0], Coded([16]), [16])
  {
    CodedPush([], 16);
    hide Coded;
    assert [16] == [] + [16];
    assert [16][0] != 0;
  }

  lemma LongEntry()
    ensures Spelled([15]) == [16]
  {
    assert Repeat(1, 16) == [] + [16];
    assert Entries(15) == [16];
    assert [15][..0] == [];
  }
}
