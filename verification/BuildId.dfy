/** The GNU build-id parser over ELF note data, against a serializer of note lists. */
module BuildId {
  import opened Common

  const TWO_TO_32: nat := 0x1_0000_0000
  const BUILD_ID_KIND: nat := 3

  // ------------------------------------------------------------- words and padding

  function LittleEndian(a: Byte, b: Byte, c: Byte, d: Byte): nat {
    a as nat + 0x100 * (b as nat + 0x100 * (c as nat + 0x100 * (d as nat)))
  }

  function ReadU32(bytes: Bytes, little: bool): Option<nat> {
    if |bytes| != 4 then None
    else if little then Some(LittleEndian(bytes[0], bytes[1], bytes[2], bytes[3]))
    else Some(LittleEndian(bytes[3], bytes[2], bytes[1], bytes[0]))
  }

  function WordBytes(n: nat, little: bool): (r: Bytes)
    requires n < TWO_TO_32
    ensures |r| == 4
  {
    var n1 := n / 0x100;
    var n2 := n1 / 0x100;
    var a, b, c, d := (n % 0x100) as Byte, (n1 % 0x100) as Byte, (n2 % 0x100) as Byte, (n2 / 0x100) as Byte;
    if little then [a, b, c, d] else [d, c, b, a]
  }

  lemma {:induction false} WordRoundTrip(n: nat, little: bool)
    requires n < TWO_TO_32
    ensures ReadU32(WordBytes(n, little), little) == Some(n)
  {
  }

  /** Rounds up to a multiple of four by clearing the two low bits. */
  function Align4(v: nat): nat { v + 3 - (v + 3) % 4 }

  lemma {:induction false} AlignIsLeast(v: nat)
    ensures Align4(v) % 4 == 0 && v <= Align4(v) && forall m :: v <= m && m % 4 == 0 ==> Align4(v) <= m
  {
  }

  lemma {:induction false} AlignShifts(cursor: nat, v: nat)
    requires cursor % 4 == 0
    ensures Align4(cursor + v) == cursor + Align4(v)
  {
    SameRemainder(cursor / 4, v + 3);
  }

  lemma {:induction false} SameRemainder(q: nat, x: nat)
    ensures (4 * q + x) % 4 == x % 4
  {
  }

  // --------------------------------------------------------------------------- hex

  function Digit(n: nat): char requires n < 16 { "0123456789abcdef"[n] }

  function Hex(bytes: Bytes): string {
    if bytes == [] then [] else
      var b := bytes[|bytes| - 1] as nat;
      Hex(bytes[..|bytes| - 1]) + [Digit(b / 16), Digit(b % 16)]
  }

  lemma {:induction false} DigitInjective(m: nat, n: nat)
    requires m < 16 && n < 16 && Digit(m) == Digit(n)
    ensures m == n
  {
  }

  /** Two lower-case digits a byte, and no two descriptors share their hex. */
  lemma {:induction false} HexInjective(x: Bytes, y: Bytes)
    ensures |Hex(x)| == 2 * |x|
    ensures Hex(x) == Hex(y) ==> x == y
  {
    hide Digit;
    HexLength(x);
    HexLength(y);
    if x != [] && y != [] && Hex(x) == Hex(y) {
      var m, n := |x| - 1, |y| - 1;
      var h, g := Hex(x[..m]), Hex(y[..n]);
      HexLength(x[..m]);
      HexLength(y[..n]);
      var b, c := x[m] as nat, y[n] as nat;
      assert Hex(x)[..2 * m] == h && Hex(y)[..2 * m] == g;
      assert Digit(b / 16) == Hex(x)[2 * m] == Digit(c / 16);
      assert Digit(b % 16) == Hex(x)[2 * m + 1] == Digit(c % 16);
      DigitInjective(b / 16, c / 16);
      DigitInjective(b % 16, c % 16);
      HexInjective(x[..m], y[..n]);
      assert x == x[..m] + [x[m]] && y == y[..n] + [y[n]];
    }
  }

  lemma {:induction false} HexLength(x: Bytes)
    ensures |Hex(x)| == 2 * |x|
  {
    if x != [] {
      HexLength(x[..|x| - 1]);
    }
  }

  method HexOf(bytes: Bytes) returns (out: string)
    ensures out == Hex(bytes)
  {
    out := "";
    for i := 0 to |bytes|
      invariant out == Hex(bytes[..i])
    {
      assert bytes[..i + 1][..i] == bytes[..i];
      var b := bytes[i] as nat;
      out := out + [Digit(b / 16), Digit(b % 16)];
    }
    assert bytes[..|bytes|] == bytes;
  }

  // ------------------------------------------------------------------------- notes

  /** A note as it lies in the section; the padding bytes may hold anything. */
  datatype Note = Note(name: Bytes, namePad: Bytes, desc: Bytes, descPad: Bytes, kind: nat)

  predicate WellFormed(n: Note) {
    && |n.name| < TWO_TO_32 && |n.desc| < TWO_TO_32 && n.kind < TWO_TO_32
    && |n.name| + |n.namePad| == Align4(|n.name|)
    && |n.desc| + |n.descPad| == Align4(|n.desc|)
  }

  function Header(n: Note, little: bool): (r: Bytes)
    requires WellFormed(n)
    ensures |r| == 12
  {
    WordBytes(|n.name|, little) + WordBytes(|n.desc|, little) + WordBytes(n.kind, little)
  }

  /** A note up to the end of its descriptor. */
  function Body(n: Note, little: bool): Bytes
    requires WellFormed(n)
  {
    Header(n, little) + n.name + n.namePad + n.desc
  }

  function Serialize(n: Note, little: bool): Bytes
    requires WellFormed(n)
  {
    Body(n, little) + n.descPad
  }

  function SerializeAll(notes: seq<Note>, little: bool): Bytes
    requires forall i :: 0 <= i < |notes| ==> WellFormed(notes[i])
  {
    if notes == [] then [] else Serialize(notes[0], little) + SerializeAll(notes[1..], little)
  }

  predicate StartsWithGnu(name: Bytes) {
    |name| >= 3 && name[..3] == [0x47, 0x4E, 0x55]
  }

  predicate IsBuildId(kind: nat, name: Bytes, desc: Bytes) {
    kind == BUILD_ID_KIND && StartsWithGnu(name) && desc != []
  }

  function FirstBuildId(notes: seq<Note>): Option<string> {
    if notes == [] then None
    else if IsBuildId(notes[0].kind, notes[0].name, notes[0].desc) then Some(Hex(notes[0].desc))
    else FirstBuildId(notes[1..])
  }

  // ------------------------------------------------------------------------ parser

  /** What the parser finds in the rest of the section. */
  function Parse(data: Bytes, little: bool): Option<string>
    decreases |data|
  {
    if |data| < 12 then None
    else
      var namesz, descsz, kind := Word(data, 0, little), Word(data, 4, little), Word(data, 8, little);
      var nameEnd := 12 + namesz;
      if nameEnd > |data| then None
      else
        var descStart := Align4(nameEnd);
        var descEnd := descStart + descsz;
        if descEnd > |data| then None
        else if IsBuildId(kind, data[12..nameEnd], data[descStart..descEnd]) then Some(Hex(data[descStart..descEnd]))
        else Parse(From(data, Align4(descEnd)), little)
  }

  function Word(data: Bytes, at: nat, little: bool): nat
    requires at + 4 <= |data|
  {
    ReadU32(data[at..at + 4], little).value
  }

  function From(data: Bytes, at: nat): Bytes {
    if at <= |data| then data[at..] else []
  }

  /** The cursor loop as written, with absolute positions. */
  method ParseGnuBuildId(data: Bytes, little: bool) returns (r: Option<string>)
    ensures r == Parse(data, little)
  {
    hide ReadU32, LittleEndian, Hex, IsBuildId, Align4;
    var cursor: nat := 0;
    assert From(data, 0) == data;
    while cursor + 12 <= |data|
      invariant cursor % 4 == 0
      invariant Parse(From(data, cursor), little) == Parse(data, little)
    {
      ghost var rest := From(data, cursor);
      var namesz := Word(data, cursor, little);
      var descsz := Word(data, cursor + 4, little);
      var kind := Word(data, cursor + 8, little);
      ghost var start := cursor;
      SameWords(data, cursor, little);
      cursor := cursor + 12;
      var nameEnd := cursor + namesz;
      if nameEnd > |data| {
        return None;
      }
      var name := data[cursor..nameEnd];
      AlignShifts(start, 12 + namesz);
      AlignIsLeast(12 + namesz);
      FromSlice(data, start, 12, 12 + namesz);
      cursor := Align4(nameEnd);
      var descEnd := cursor + descsz;
      if descEnd > |data| {
        return None;
      }
      var desc := data[cursor..descEnd];
      FromSlice(data, start, cursor - start, descEnd - start);
      AlignShifts(start, descEnd - start);
      AlignIsLeast(descEnd - start);
      AlignIsLeast(descEnd);
      cursor := Align4(descEnd);
      if IsBuildId(kind, name, desc) {
        var hex := HexOf(desc);
        return Some(hex);
      }
      assert From(rest, cursor - start) == From(data, cursor);
    }
    r := None;
  }

  lemma {:induction false} FromSlice(data: Bytes, cursor: nat, a: nat, b: nat)
    requires a <= b && cursor + b <= |data|
    ensures From(data, cursor)[a..b] == data[cursor + a..cursor + b]
  {
  }

  lemma {:induction false} SameWords(data: Bytes, cursor: nat, little: bool)
    requires cursor + 12 <= |data|
    ensures var rest := From(data, cursor);
      && |rest| == |data| - cursor
      && Word(rest, 0, little) == Word(data, cursor, little)
      && Word(rest, 4, little) == Word(data, cursor + 4, little)
      && Word(rest, 8, little) == Word(data, cursor + 8, little)
  {
    hide ReadU32;
    var rest := data[cursor..];
    assert rest[0..4] == data[cursor..cursor + 4];
    assert rest[4..8] == data[cursor + 4..cursor + 8];
    assert rest[8..12] == data[cursor + 8..cursor + 12];
  }

  // ------------------------------------------------------------------- round trips

  lemma {:induction false} WordRoundTripBack(bytes: Bytes, little: bool)
    requires |bytes| == 4
    ensures ReadU32(bytes, little).value < TWO_TO_32
    ensures WordBytes(ReadU32(bytes, little).value, little) == bytes
  {
    var s := if little then bytes else [bytes[3], bytes[2], bytes[1], bytes[0]];
    var n2 := s[2] as nat + 0x100 * (s[3] as nat);
    var n1 := s[1] as nat + 0x100 * n2;
    PeelByte(s[0] as nat, n1);
    PeelByte(s[1] as nat, n2);
    PeelByte(s[2] as nat, s[3] as nat);
  }

  lemma {:induction false} PeelByte(a: nat, m: nat)
    requires a < 0x100
    ensures (a + 0x100 * m) % 0x100 == a && (a + 0x100 * m) / 0x100 == m
  {
  }

  /** The fields that the parser cuts out of a serialized note. */
  lemma {:induction false} FieldsRead(n: Note, rest: Bytes, little: bool)
    requires WellFormed(n)
    ensures var data := Body(n, little) + rest;
      && |data| >= 12
      && Word(data, 0, little) == |n.name| && Word(data, 4, little) == |n.desc| && Word(data, 8, little) == n.kind
  {
    hide ReadU32, WordBytes, Align4;
    var data := Body(n, little) + rest;
    assert data[0..4] == WordBytes(|n.name|, little);
    assert data[4..8] == WordBytes(|n.desc|, little);
    assert data[8..12] == WordBytes(n.kind, little);
    WordRoundTrip(|n.name|, little);
    WordRoundTrip(|n.desc|, little);
    WordRoundTrip(n.kind, little);
  }

  lemma {:induction false} PartsCut(n: Note, rest: Bytes, little: bool)
    requires WellFormed(n)
    ensures var data, nameEnd, descStart := Body(n, little) + rest, 12 + |n.name|, 12 + |n.name| + |n.namePad|;
      && descStart + |n.desc| == |Body(n, little)| <= |data|
      && data[12..nameEnd] == n.name && data[descStart..descStart + |n.desc|] == n.desc
      && data[descStart + |n.desc|..] == rest
  {
    hide Align4, WordBytes;
    var data := Body(n, little) + rest;
    assert data == Header(n, little) + (n.name + (n.namePad + (n.desc + rest)));
  }

  lemma {:induction false} Positions(n: Note)
    requires WellFormed(n)
    ensures Align4(12 + |n.name|) == 12 + |n.name| + |n.namePad|
    ensures Align4(12 + |n.name| + |n.namePad| + |n.desc|) == 12 + |n.name| + |n.namePad| + |n.desc| + |n.descPad|
  {
    hide Align4;
    AlignShifts(12, |n.name|);
    AlignIsLeast(|n.name|);
    AlignShifts(12 + |n.name| + |n.namePad|, |n.desc|);
  }

  /** The parser takes one note and goes on behind its padding. */
  lemma {:induction false} ParseNote(n: Note, rest: Bytes, little: bool)
    requires WellFormed(n)
    ensures IsBuildId(n.kind, n.name, n.desc) ==> Parse(Body(n, little) + rest, little) == Some(Hex(n.desc))
    ensures !IsBuildId(n.kind, n.name, n.desc) ==>
      Parse(Body(n, little) + rest, little) == Parse(From(rest, |n.descPad|), little)
  {
    hide Align4, Word, Hex, IsBuildId, WellFormed, Body;
    var data := Body(n, little) + rest;
    FieldsRead(n, rest, little);
    PartsCut(n, rest, little);
    Positions(n);
    FromBehind(Body(n, little), rest, |n.descPad|);
  }

  lemma {:induction false} FromBehind(a: Bytes, b: Bytes, k: nat)
    ensures From(a + b, |a| + k) == From(b, k)
  {
  }

  /** Over any serialized list, the parser finds the first build id, else goes on behind the list. */
  lemma {:induction false} ParseSerialized(notes: seq<Note>, tail: Bytes, little: bool)
    requires forall i :: 0 <= i < |notes| ==> WellFormed(notes[i])
    ensures Parse(SerializeAll(notes, little) + tail, little)
         == if FirstBuildId(notes).Some? then FirstBuildId(notes) else Parse(tail, little)
    decreases |notes|
  {
    hide Parse, IsBuildId, WellFormed, Body, Hex;
    if notes == [] {
      assert SerializeAll(notes, little) + tail == tail;
    } else {
      var n, more := notes[0], SerializeAll(notes[1..], little) + tail;
      assert SerializeAll(notes, little) + tail == Body(n, little) + (n.descPad + more);
      ParseNote(n, n.descPad + more, little);
      assert From(n.descPad + more, |n.descPad|) == more;
      ParseSerialized(notes[1..], tail, little);
    }
  }

  lemma {:induction false} SmallWords(n: nat)
    requires n < 256
    ensures WordBytes(n, true) == [n as Byte, 0, 0, 0] && WordBytes(n, false) == [0, 0, 0, n as Byte]
  {
  }

  const GNU_NAME: Bytes := [0x47, 0x4E, 0x55, 0]

  lemma {:induction false} LinkerNoteIsNote(desc: Bytes) returns (n: Note)
    requires 0 < |desc| < 256
    ensures n.kind == 3 && n.name == GNU_NAME && n.namePad == [] && n.desc == desc && WellFormed(n)
    ensures IsBuildId(n.kind, n.name, n.desc)
  {
    AlignIsLeast(|desc|);
    n := Note(GNU_NAME, [], desc, seq(Align4(|desc|) - |desc|, _ => 0), 3);
    assert GNU_NAME[..3] == [0x47, 0x4E, 0x55];
  }

  /** A note as a linker writes it, low byte first: two sizes, the type 3, the name GNU, the descriptor. */
  lemma {:induction false} LinkerNote(desc: Bytes)
    requires 0 < |desc| < 256
    ensures Parse([4, 0, 0, 0] + [|desc| as Byte, 0, 0, 0] + [3, 0, 0, 0] + GNU_NAME + desc, true) == Some(Hex(desc))
  {
    hide Parse, Hex, WordBytes, IsBuildId, WellFormed, Align4;
    var n := LinkerNoteIsNote(desc);
    SmallWords(4);
    SmallWords(|desc|);
    SmallWords(3);
    ParseNote(n, [], true);
    var header := WordBytes(4, true) + WordBytes(|desc|, true) + WordBytes(3, true);
    assert header + GNU_NAME + [] + desc + [] == header + GNU_NAME + desc;
    assert Body(n, true) + [] == header + GNU_NAME + desc;
  }

  /** A list with nothing, or only a fragment too short for a header, behind it. */
  lemma {:induction false} ParseNoteList(notes: seq<Note>, tail: Bytes, little: bool)
    requires (forall i :: 0 <= i < |notes| ==> WellFormed(notes[i])) && |tail| < 12
    ensures Parse(SerializeAll(notes, little) + tail, little) == FirstBuildId(notes)
  {
    hide SerializeAll, WellFormed;
    ParseSerialized(notes, tail, little);
  }

  // --------------------------------------------------------- every answer is earned

  ghost predicate AllWellFormed(notes: seq<Note>) {
    forall i :: 0 <= i < |notes| ==> WellFormed(notes[i])
  }

  /** `data` is notes without a build id, then a build-id note, then anything. */
  ghost predicate Holds(data: Bytes, little: bool, notes: seq<Note>, last: Note, tail: Bytes) {
    && AllWellFormed(notes) && WellFormed(last)
    && FirstBuildId(notes) == None && IsBuildId(last.kind, last.name, last.desc)
    && data == SerializeAll(notes, little) + (Body(last, little) + tail)
  }

  lemma {:induction false} HeldIsFound(data: Bytes, little: bool, notes: seq<Note>, last: Note, tail: Bytes)
    requires Holds(data, little, notes, last, tail)
    ensures Parse(data, little) == Some(Hex(last.desc))
  {
    hide Parse, SerializeAll, Body, WellFormed, IsBuildId;
    ParseSerialized(notes, Body(last, little) + tail, little);
    ParseNote(last, tail, little);
  }

  /** The note at the head of data that the parser did not refuse. */
  function NoteAt(data: Bytes, little: bool): Note
    requires |data| >= 12 && 12 + Word(data, 0, little) <= |data|
    requires Align4(12 + Word(data, 0, little)) + Word(data, 4, little) <= |data|
  {
    var nameEnd := 12 + Word(data, 0, little);
    var descStart := Align4(nameEnd);
    var descEnd := descStart + Word(data, 4, little);
    Note(data[12..nameEnd], data[nameEnd..descStart], data[descStart..descEnd],
         if Align4(descEnd) <= |data| then data[descEnd..Align4(descEnd)]
             else seq(Align4(descEnd) - descEnd, _ => 0 as Byte),
         Word(data, 8, little))
  }

  lemma {:induction false} WordsBack(data: Bytes, little: bool)
    requires |data| >= 12
    ensures Word(data, 0, little) < TWO_TO_32 && Word(data, 4, little) < TWO_TO_32 && Word(data, 8, little) < TWO_TO_32
    ensures data[..12] == WordBytes(Word(data, 0, little), little) + WordBytes(Word(data, 4, little), little)
                          + WordBytes(Word(data, 8, little), little)
  {
    hide ReadU32, WordBytes;
    WordRoundTripBack(data[0..4], little);
    WordRoundTripBack(data[4..8], little);
    WordRoundTripBack(data[8..12], little);
    assert data[..12] == data[0..4] + data[4..8] + data[8..12];
  }

  lemma {:induction false} NoteAtWellFormed(data: Bytes, little: bool)
    requires |data| >= 12 && 12 + Word(data, 0, little) <= |data|
    requires Align4(12 + Word(data, 0, little)) + Word(data, 4, little) <= |data|
    ensures WellFormed(NoteAt(data, little))
  {
    hide Align4, Word, WordBytes;
    var namesz, descsz := Word(data, 0, little), Word(data, 4, little);
    WordsBack(data, little);
    AlignShifts(12, namesz);
    AlignIsLeast(namesz);
    AlignIsLeast(12 + namesz);
    AlignShifts(Align4(12 + namesz), descsz);
    AlignIsLeast(descsz);
  }

  lemma {:induction false} Sliced(data: Bytes, a: nat, b: nat, c: nat)
    requires 12 <= a <= b <= c <= |data|
    ensures data == data[..12] + data[12..a] + data[a..b] + data[b..c] + data[c..]
  {
  }

  lemma {:induction false} Padded(data: Bytes, body: Bytes, a: nat, b: nat)
    requires a <= b <= |data| && data == body + data[a..]
    ensures data == body + data[a..b] + data[b..]
  {
    assert data[a..] == data[a..b] + data[b..];
  }

  lemma {:induction false} NoteAtSerializes(data: Bytes, little: bool)
    requires |data| >= 12 && 12 + Word(data, 0, little) <= |data|
    requires Align4(12 + Word(data, 0, little)) + Word(data, 4, little) <= |data|
    ensures var n, descEnd := NoteAt(data, little), Align4(12 + Word(data, 0, little)) + Word(data, 4, little);
      && WellFormed(n) && data == Body(n, little) + data[descEnd..]
      && (Align4(descEnd) <= |data| ==> data == Serialize(n, little) + data[Align4(descEnd)..])
  {
    hide Align4, Word, WordBytes, WellFormed, Body;
    var n, descEnd := NoteAt(data, little), Align4(12 + Word(data, 0, little)) + Word(data, 4, little);
    NoteAtWellFormed(data, little);
    NoteAtBody(data, little);
    AlignIsLeast(descEnd);
    if Align4(descEnd) <= |data| {
      Padded(data, Body(n, little), descEnd, Align4(descEnd));
    }
  }

  lemma {:induction false} NoteAtBody(data: Bytes, little: bool)
    requires |data| >= 12 && 12 + Word(data, 0, little) <= |data|
    requires Align4(12 + Word(data, 0, little)) + Word(data, 4, little) <= |data|
    requires WellFormed(NoteAt(data, little))
    ensures
      var descEnd := Align4(12 + Word(data, 0, little)) + Word(data, 4, little);
      data == Body(NoteAt(data, little), little) + data[descEnd..]
  {
    hide Align4, Word, WordBytes, WellFormed;
    var nameEnd := 12 + Word(data, 0, little);
    var descStart := Align4(nameEnd);
    WordsBack(data, little);
    AlignIsLeast(nameEnd);
    Sliced(data, nameEnd, descStart, descStart + Word(data, 4, little));
  }

  /** Whatever the bytes, an answer means that the section really holds that note. */
  lemma {:induction false} FoundIsHeld(data: Bytes, little: bool) returns (notes: seq<Note>, last: Note, tail: Bytes)
    requires Parse(data, little).Some?
    ensures Holds(data, little, notes, last, tail) && Parse(data, little) == Some(Hex(last.desc))
    decreases |data|
  {
    hide Word, Align4, Hex, IsBuildId, WellFormed, Body;
    var namesz, descsz := Word(data, 0, little), Word(data, 4, little);
    var descEnd := Align4(12 + namesz) + descsz;
    AlignIsLeast(12 + namesz);
    AlignIsLeast(descEnd);
    var n := NoteAt(data, little);
    NoteAtSerializes(data, little);
    if IsBuildId(n.kind, n.name, n.desc) {
      notes, last, tail := [], n, data[descEnd..];
      assert data == SerializeAll([], little) + (Body(n, little) + tail);
    } else {
      var rest := From(data, Align4(descEnd));
      notes, last, tail := FoundIsHeld(rest, little);
      HoldsBehind(data, little, n, rest, notes, last, tail);
      notes := [n] + notes;
    }
  }

  lemma {:induction false} HoldsBehind(data: Bytes, little: bool, n: Note, rest: Bytes, notes: seq<Note>, last: Note,
                                       tail: Bytes)
    requires Holds(rest, little, notes, last, tail) && WellFormed(n) && !IsBuildId(n.kind, n.name, n.desc)
    requires data == Serialize(n, little) + rest
    ensures Holds(data, little, [n] + notes, last, tail)
  {
    hide Serialize, Body, WellFormed, IsBuildId, Hex;
    assert ([n] + notes)[1..] == notes;
    assert SerializeAll([n] + notes, little) == Serialize(n, little) + SerializeAll(notes, little);
  }

  /** Exactly when the parser answers, and with what. */
  lemma {:induction false} AnswersExactly(data: Bytes, little: bool, h: string)
    ensures Parse(data, little) == Some(h)
      <==> exists notes, last, tail :: Holds(data, little, notes, last, tail) && h == Hex(last.desc)
  {
    hide Parse, Holds, Hex;
    if Parse(data, little) == Some(h) {
      var notes, last, tail := FoundIsHeld(data, little);
    }
    forall notes, last, tail | Holds(data, little, notes, last, tail)
      ensures Parse(data, little) == Some(Hex(last.desc)) {
      HeldIsFound(data, little, notes, last, tail);
    }
  }
}
