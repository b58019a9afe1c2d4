/** The structures of an SMBIOS table: a header, then a set of strings that ends with a
    zero byte of its own.  Walking them inverts writing them. */
module Smbios {
  import opened Numbers
  import opened Wrappers

  // ----- finding the strings -----

  /** Where the string at `at` ends: its zero byte, or the end of the image. */
  function Zero(image: seq<Byte>, at: nat): (z: nat)
    requires at <= |image|
    ensures at <= z <= |image| && (z < |image| ==> image[z] == 0)
    ensures forall i :: at <= i < z ==> image[i] != 0
    decreases |image| - at
  {
    if at == |image| || image[at] == 0 then at else Zero(image, at + 1)
  }

  /** Where the strings of a set start, and the zero byte that ends the set. */
  datatype StringSet = StringSet(starts: seq<nat>, zero: nat)

  /** The set of strings at `at`, unless it runs off the image. */
  function FindStrings(image: seq<Byte>, at: nat): (r: Option<StringSet>)
    ensures r.Some? ==> at <= r.value.zero < |image|
    decreases |image| - at
  {
    if at >= |image| then None
    else if image[at] == 0 then Some(StringSet([], at))
    else
      var z := Zero(image, at);
      if z == |image| then None
      else
        match FindStrings(image, z + 1)
        case None => None
        case Some(rest) => Some(StringSet([at] + rest.starts, rest.zero))
  }

  /** A set without strings ends with two zero bytes, of which one was looked at. */
  function EndOf(set_: StringSet): nat {
    if set_.starts == [] then set_.zero + 2 else set_.zero + 1
  }

  class StringList {
    const image: seq<Byte>
    var count: nat
    var strings: array<nat>
    var end: nat

    constructor (image: seq<Byte>)
      ensures this.image == image
    {
      this.image := image;
      count, end := 0, 0;
      strings := new nat[0];
    }

    ghost predicate Holds(set_: StringSet)
      reads this, strings
    {
      strings[..] == set_.starts && count == |set_.starts| && end == EndOf(set_)
    }

    /** Counts on the way down and fills in the starts on the way back. */
    method Parse(data: nat, n: nat) returns (ok: bool)
      modifies this
      ensures ok <==> FindStrings(image, data).Some?
      ensures ok ==> fresh(strings) && strings.Length == count == n + |FindStrings(image, data).value.starts|
      ensures ok ==> strings[n..] == FindStrings(image, data).value.starts
      ensures ok ==> end == if count == 0 then FindStrings(image, data).value.zero + 2
                            else FindStrings(image, data).value.zero + 1
      decreases |image| - data
    {
      if data >= |image| { return false; }
      if image[data] == 0 {
        count := n;
        strings := new nat[n];
        end := if count != 0 then data + 1 else data + 2;
        return true;
      }
      var p := data;
      while p < |image| && image[p] != 0
        invariant data <= p <= |image| && Zero(image, p) == Zero(image, data)
      {
        p := p + 1;
      }
      if p == |image| { return false; }
      ok := Parse(p + 1, n + 1);
      if ok {
        strings[n] := data;
        assert strings[n..] == [data] + strings[n + 1..];
      }
    }

    method ParseAll(data: nat) returns (ok: bool)
      modifies this
      ensures ok <==> FindStrings(image, data).Some?
      ensures ok ==> Holds(FindStrings(image, data).value)
    {
      ok := Parse(data, 0);
      if ok { assert strings[..] == strings[0..]; }
    }
  }

  // ----- structures and tables -----

  /** A structure in the image: its header is at `at`, the next structure at `next`. */
  datatype Structure = Structure(kind: Byte, at: nat, header: Byte, strings: seq<nat>, next: nat)

  function ReadStructure(image: seq<Byte>, p: nat): Option<Structure> {
    if p + 1 >= |image| then None
    else
      match FindStrings(image, p + image[p + 1])
      case None => None
      case Some(set_) => Some(Structure(image[p], p, image[p + 1], set_.starts, EndOf(set_)))
  }

  /** The next `count` structures, and where the walk stops. */
  function Walk(image: seq<Byte>, p: nat, count: nat): (r: Option<(seq<Structure>, nat)>)
    ensures r.Some? ==> |r.value.0| == count
    decreases count
  {
    if count == 0 then Some(([], p))
    else
      match ReadStructure(image, p)
      case None => None
      case Some(first) =>
        match Walk(image, first.next, count - 1)
        case None => None
        case Some(rest) => Some(([first] + rest.0, rest.1))
  }

  const BIOS: Byte := 0
  const SYSTEM: Byte := 1
  const BASEBOARD: Byte := 2
  const CHASSIS: Byte := 3
  const PROCESSOR: Byte := 4

  /** The last structure of a kind. */
  function LastOf(structures: seq<Structure>, kind: Byte): Option<Structure> {
    if structures == [] then None
    else if structures[|structures| - 1].kind == kind then Some(structures[|structures| - 1])
    else LastOf(structures[..|structures| - 1], kind)
  }

  function AllOf(structures: seq<Structure>, kind: Byte): seq<Structure> {
    if structures == [] then []
    else AllOf(structures[..|structures| - 1], kind)
         + if structures[|structures| - 1].kind == kind then [structures[|structures| - 1]] else []
  }

  lemma {:induction false} LastOfIsLast(structures: seq<Structure>, i: nat)
    requires i < |structures| && forall j :: i < j < |structures| ==> structures[j].kind != structures[i].kind
    ensures LastOf(structures, structures[i].kind) == Some(structures[i])
    decreases |structures|
  {
    var front := structures[..|structures| - 1];
    if i < |front| { LastOfIsLast(front, i); }
  }

  lemma {:induction false} NoLastOf(structures: seq<Structure>, kind: Byte)
    requires forall s :: s in structures ==> s.kind != kind
    ensures LastOf(structures, kind) == None
    decreases |structures|
  {
    if structures != [] { NoLastOf(structures[..|structures| - 1], kind); }
  }

  lemma {:induction false} AllOfAre(structures: seq<Structure>, kind: Byte)
    ensures forall s :: s in AllOf(structures, kind) <==> s in structures && s.kind == kind
    decreases |structures|
  {
    if structures != [] {
      var front := structures[..|structures| - 1];
      AllOfAre(front, kind);
      assert structures == front + [structures[|structures| - 1]];
    }
  }

  /** The baseboard of a table: one that has none is given the system's structure once more. */
  function Board(structures: seq<Structure>): Option<Structure> {
    if LastOf(structures, BASEBOARD).Some? then LastOf(structures, BASEBOARD) else LastOf(structures, SYSTEM)
  }

  class Table {
    const image: seq<Byte>
    var dmi: seq<Structure>
    var bios: Option<Structure>
    var system: Option<Structure>
    var baseboard: Option<Structure>
    var chassis: Option<Structure>
    var sockets: seq<Structure>

    constructor (image: seq<Byte>)
      ensures this.image == image && Sorted() && dmi == []
    {
      this.image := image;
      dmi, sockets := [], [];
      bios, system, baseboard, chassis := None, None, None, None;
    }

    /** Each structure is filed under its kind; `board` is the baseboard. */
    ghost predicate Filed(board: Option<Structure>)
      reads this
    {
      && bios == LastOf(dmi, BIOS) && system == LastOf(dmi, SYSTEM)
      && baseboard == board && chassis == LastOf(dmi, CHASSIS)
      && sockets == AllOf(dmi, PROCESSOR)
    }

    ghost predicate Sorted()
      reads this
    {
      Filed(LastOf(dmi, BASEBOARD))
    }

    method File(structure: Structure)
      requires Sorted()
      modifies this
      ensures Sorted() && dmi == old(dmi) + [structure]
    {
      dmi := dmi + [structure];
      assert dmi[..|dmi| - 1] == old(dmi);
      if structure.kind == BIOS { bios := Some(structure); }
      else if structure.kind == SYSTEM { system := Some(structure); }
      else if structure.kind == BASEBOARD { baseboard := Some(structure); }
      else if structure.kind == CHASSIS { chassis := Some(structure); }
      else if structure.kind == PROCESSOR { sockets := sockets + [structure]; }
    }

    method ReadNext(p: nat) returns (ok: bool, next: nat)
      requires Sorted()
      modifies this
      ensures ok <==> ReadStructure(image, p).Some?
      ensures ok ==> Sorted() && dmi == old(dmi) + [ReadStructure(image, p).value]
                     && next == ReadStructure(image, p).value.next
    {
      hide Sorted;
      next := p;
      if p + 1 >= |image| { return false, p; }
      var strings := new StringList(image);
      var found := strings.ParseAll(p + image[p + 1]);
      if !found { return false, p; }
      var structure := Structure(image[p], p, image[p + 1], strings.strings[..], strings.end);
      File(structure);
      return true, structure.next;
    }

    /** Walks over the structures that are said to be there, and then takes the system for the baseboard
        if there is none.  Without either the source uses a null pointer. */
    method Read(base: nat, count: nat) returns (ok: bool, p: nat)
      requires Sorted() && dmi == []
      modifies this
      ensures ok <==> Walk(image, base, count).Some? && Board(Walk(image, base, count).value.0).Some?
      ensures ok ==> Filed(Board(dmi)) && Walk(image, base, count) == Some((dmi, p))
      ensures ok ==> forall i :: 0 <= i < |dmi| && (forall j :: i < j < |dmi| ==> dmi[j].kind != dmi[i].kind) ==>
        match dmi[i].kind
        case 0 => bios == Some(dmi[i])
        case 1 => system == Some(dmi[i])
        case 2 => baseboard == Some(dmi[i])
        case 3 => chassis == Some(dmi[i])
        case _ => true
      ensures ok ==> forall s :: s in sockets <==> s in dmi && s.kind == 4
      ensures ok && (forall s :: s in dmi ==> s.kind != 2) ==> system.Some? && baseboard == system
    {
      ok, p := ReadAll(base, count);
      if ok && baseboard == None {
        if system == None { return false, p; }
        baseboard := system;
      }
      forall i | 0 <= i < |dmi| && forall j :: i < j < |dmi| ==> dmi[j].kind != dmi[i].kind
        ensures LastOf(dmi, dmi[i].kind) == Some(dmi[i])
      {
        LastOfIsLast(dmi, i);
      }
      AllOfAre(dmi, PROCESSOR);
      if forall s :: s in dmi ==> s.kind != 2 { NoLastOf(dmi, BASEBOARD); }
    }

    method ReadAll(base: nat, count: nat) returns (ok: bool, p: nat)
      requires Sorted() && dmi == []
      modifies this
      ensures ok <==> Walk(image, base, count).Some?
      ensures ok ==> Sorted() && Walk(image, base, count) == Some((dmi, p))
    {
      hide Sorted, ReadStructure;
      p := base;
      Prefixed([], image, base, count);
      for i := 0 to count
        invariant Sorted() && Walk(image, base, count) == After(dmi, Walk(image, p, count - i))
      {
        ghost var before := dmi;
        ghost var at := p;
        ok, p := ReadNext(p);
        if !ok { return; }
        Prefixed(before, image, at, count - i);
      }
      Prefixed(dmi, image, p, 0);
      ok := true;
    }
  }

  /** A walk that goes on after `front` was read. */
  function After(front: seq<Structure>, rest: Option<(seq<Structure>, nat)>): Option<(seq<Structure>, nat)> {
    match rest
    case None => None
    case Some(r) => Some((front + r.0, r.1))
  }

  lemma Prefixed(front: seq<Structure>, image: seq<Byte>, p: nat, count: nat)
    ensures front == [] ==> After(front, Walk(image, p, count)) == Walk(image, p, count)
    ensures count == 0 ==> After(front, Walk(image, p, count)) == Some((front, p))
    ensures count > 0 && ReadStructure(image, p).Some? ==>
      After(front, Walk(image, p, count))
      == After(front + [ReadStructure(image, p).value], Walk(image, ReadStructure(image, p).value.next, count - 1))
  {
    assert front + [] == front;
    if Walk(image, p, count).Some? { assert [] + Walk(image, p, count).value.0 == Walk(image, p, count).value.0; }
    if count > 0 && ReadStructure(image, p).Some? {
      var s := ReadStructure(image, p).value;
      if Walk(image, s.next, count - 1).Some? {
        var rest := Walk(image, s.next, count - 1).value.0;
        assert front + ([s] + rest) == front + [s] + rest;
      }
    }
  }

  // ----- looking a string up -----

  datatype Lookup = Null | At(start: nat) | PastTheEnd

  /** What the string number in a header leads to: the index is taken in eight bits, and only an index
      above the count is refused. */
  function LookUp(starts: seq<nat>, number: Byte): Lookup {
    var index := (number + 255) % 256;
    if |starts| < index then Null else if index == |starts| then PastTheEnd else At(starts[index])
  }

  /** Strings are numbered from 1, and 0 names no string. */
  function Numbered(starts: seq<nat>, number: Byte): Lookup {
    if 1 <= number <= |starts| then At(starts[number - 1]) else Null
  }

  /** The lookup is right unless the number is one more than the count, or the number 0 wraps to an
      index that the set has. */
  lemma LookUpIsRightUnless(starts: seq<nat>, number: Byte)
    ensures LookUp(starts, number) == Numbered(starts, number)
            <==> number != |starts| + 1 && (number == 0 ==> |starts| < 255)
    ensures LookUp(starts, number) == PastTheEnd
            <==> number == |starts| + 1 || (number == 0 && |starts| == 255)
  {
    assert (number + 255) % 256 == if number == 0 then 255 else number - 1;
  }

  // ----- writing -----

  datatype Entry = Entry(kind: Byte, body: seq<Byte>, strings: seq<seq<Byte>>)

  predicate Writable(e: Entry) {
    |e.body| <= 253 && forall i :: 0 <= i < |e.strings| ==> e.strings[i] != [] && 0 !in e.strings[i]
  }

  function StringBytes(strings: seq<seq<Byte>>): seq<Byte> {
    if strings == [] then [] else strings[0] + [0] + StringBytes(strings[1..])
  }

  function Written(e: Entry): seq<Byte>
    requires Writable(e)
  {
    [e.kind, |e.body| + 2] + e.body + SetBytes(e.strings)
  }

  function AllWritten(es: seq<Entry>): seq<Byte>
    requires forall i :: 0 <= i < |es| ==> Writable(es[i])
  {
    if es == [] then [] else Written(es[0]) + AllWritten(es[1..])
  }

  function StringAt(image: seq<Byte>, at: nat): seq<Byte>
    requires at <= |image|
  {
    image[at..Zero(image, at)]
  }

  /** What a structure of the image says. */
  function Content(image: seq<Byte>, s: Structure): Entry
    requires s.at + 2 <= s.at + s.header <= |image| && forall i :: 0 <= i < |s.strings| ==> s.strings[i] <= |image|
  {
    Entry(s.kind, image[s.at + 2..s.at + s.header],
          seq(|s.strings|, i requires 0 <= i < |s.strings| => StringAt(image, s.strings[i])))
  }

  /** Whether the image holds `bytes` at `at`. */
  predicate HasAt(image: seq<Byte>, at: nat, bytes: seq<Byte>) {
    at + |bytes| <= |image| && image[at..at + |bytes|] == bytes
  }

  lemma {:induction false} ZeroIs(image: seq<Byte>, at: nat, z: nat)
    requires at <= z < |image| && image[z] == 0 && forall i :: at <= i < z ==> image[i] != 0
    ensures Zero(image, at) == z
    decreases z - at
  {
    if at < z { ZeroIs(image, at + 1, z); }
  }

  lemma ZeroOfString(image: seq<Byte>, at: nat, s: seq<Byte>)
    requires HasAt(image, at, s + [0]) && 0 !in s
    ensures Zero(image, at) == at + |s| && StringAt(image, at) == s
  {
    forall i | at <= i < at + |s| ensures image[i] != 0 {
      assert image[at..at + |s| + 1][i - at] == s[i - at];
    }
    assert image[at..at + |s| + 1][|s|] == 0;
    ZeroIs(image, at, at + |s|);
    assert image[at..at + |s|] == image[at..at + |s| + 1][..|s|];
  }

  lemma HasParts(image: seq<Byte>, at: nat, a: seq<Byte>, b: seq<Byte>)
    requires HasAt(image, at, a + b)
    ensures HasAt(image, at, a) && HasAt(image, at + |a|, b)
  {
    assert (a + b)[..|a|] == a && (a + b)[|a|..] == b;
  }

  ghost predicate AreAt(image: seq<Byte>, starts: seq<nat>, strings: seq<seq<Byte>>) {
    |starts| == |strings|
    && forall i :: 0 <= i < |strings| ==> starts[i] <= |image| && StringAt(image, starts[i]) == strings[i]
  }

  lemma FirstIsAt(image: seq<Byte>, start: nat, starts: seq<nat>, s: seq<Byte>, strings: seq<seq<Byte>>)
    requires start <= |image| && StringAt(image, start) == s && AreAt(image, starts, strings)
    ensures AreAt(image, [start] + starts, [s] + strings)
  {
  }

  lemma FirstStringIsFound(image: seq<Byte>, at: nat, strings: seq<seq<Byte>>)
    requires strings != [] && strings[0] != [] && 0 !in strings[0]
    requires HasAt(image, at, StringBytes(strings) + [0])
    ensures var z := at + |strings[0]|;
      && z < |image| && Zero(image, at) == z && image[at] != 0 && StringAt(image, at) == strings[0]
      && HasAt(image, z + 1, StringBytes(strings[1..]) + [0])
  {
    hide StringAt;
    var s, rest := strings[0], StringBytes(strings[1..]) + [0];
    assert StringBytes(strings) + [0] == (s + [0]) + rest;
    HasParts(image, at, s + [0], rest);
    ZeroOfString(image, at, s);
    assert image[at] == image[at..at + |s| + 1][0] == s[0];
  }

  /** Written strings are found one by one, in order. */
  lemma {:induction false} WrittenStringsAreFound(image: seq<Byte>, at: nat, strings: seq<seq<Byte>>)
    requires HasAt(image, at, StringBytes(strings) + [0])
    requires forall i :: 0 <= i < |strings| ==> strings[i] != [] && 0 !in strings[i]
    ensures FindStrings(image, at).Some?
    ensures FindStrings(image, at).value.zero == at + |StringBytes(strings)|
    ensures AreAt(image, FindStrings(image, at).value.starts, strings)
    decreases |strings|
  {
    hide AreAt, StringAt, Zero, HasAt;
    if strings == [] {
      EndIsFound(image, at);
      NoneAreAt(image);
    } else {
      FirstStringIsFound(image, at, strings);
      var z := at + |strings[0]|;
      WrittenStringsAreFound(image, z + 1, strings[1..]);
      FirstIsAt(image, at, FindStrings(image, z + 1).value.starts, strings[0], strings[1..]);
      assert [strings[0]] + strings[1..] == strings;
    }
  }

  lemma EndIsFound(image: seq<Byte>, at: nat)
    requires HasAt(image, at, StringBytes([]) + [0])
    ensures FindStrings(image, at) == Some(StringSet([], at))
  {
    assert StringBytes([]) + [0] == [0];
    assert image[at..at + 1] == [0];
    assert image[at] == 0;
  }

  lemma NoneAreAt(image: seq<Byte>)
    ensures AreAt(image, [], [])
  {
  }

  function SetBytes(strings: seq<seq<Byte>>): seq<Byte> {
    StringBytes(strings) + if strings == [] then [0, 0] else [0]
  }

  lemma WrittenSetIsFound(image: seq<Byte>, at: nat, strings: seq<seq<Byte>>)
    requires HasAt(image, at, SetBytes(strings))
    requires forall i :: 0 <= i < |strings| ==> strings[i] != [] && 0 !in strings[i]
    ensures FindStrings(image, at).Some? && AreAt(image, FindStrings(image, at).value.starts, strings)
    ensures EndOf(FindStrings(image, at).value) == at + |SetBytes(strings)|
  {
    assert SetBytes(strings) == StringBytes(strings) + [0] + if strings == [] then [0] else [];
    HasParts(image, at, StringBytes(strings) + [0], if strings == [] then [0] else []);
    WrittenStringsAreFound(image, at, strings);
  }

  lemma WrittenStructureIsRead(image: seq<Byte>, at: nat, e: Entry)
    requires Writable(e) && HasAt(image, at, Written(e))
    ensures ReadStructure(image, at).Some?
    ensures var s := ReadStructure(image, at).value;
      && s.next == at + |Written(e)| && s.at == at && s.header == |e.body| + 2 && s.at + s.header <= |image|
      && AreAt(image, s.strings, e.strings) && s.kind == e.kind
      && image[s.at + 2..s.at + s.header] == e.body
  {
    hide AreAt, FindStrings, SetBytes, EndOf, Zero;
    assert Written(e) == [e.kind, |e.body| + 2] + (e.body + SetBytes(e.strings));
    HasParts(image, at, [e.kind, |e.body| + 2], e.body + SetBytes(e.strings));
    HasParts(image, at + 2, e.body, SetBytes(e.strings));
    WrittenSetIsFound(image, at + 2 + |e.body|, e.strings);
    assert image[at] == image[at..at + 2][0] && image[at + 1] == image[at..at + 2][1];
  }

  ghost predicate Says(image: seq<Byte>, s: Structure, e: Entry) {
    && s.at + 2 <= s.at + s.header <= |image| && (forall i :: 0 <= i < |s.strings| ==> s.strings[i] <= |image|)
    && Content(image, s) == e
  }

  lemma ReadSays(image: seq<Byte>, s: Structure, e: Entry)
    requires s.kind == e.kind && s.header >= 2 && s.at + s.header <= |image|
    requires AreAt(image, s.strings, e.strings) && image[s.at + 2..s.at + s.header] == e.body
    ensures Says(image, s, e)
  {
    assert Content(image, s).strings == e.strings;
  }

  /** Walking over what was written gives every entry back, in order, and stops exactly at
      the end of what was written. */
  lemma {:induction false} WalkInvertsWriting(image: seq<Byte>, at: nat, es: seq<Entry>)
    requires (forall i :: 0 <= i < |es| ==> Writable(es[i])) && HasAt(image, at, AllWritten(es))
    ensures Walk(image, at, |es|).Some?
    ensures Walk(image, at, |es|).value.1 == at + |AllWritten(es)|
    ensures forall i :: 0 <= i < |es| ==> Says(image, Walk(image, at, |es|).value.0[i], es[i])
    decreases |es|
  {
    hide Writable, Written, Says, ReadStructure, HasAt;
    if es != [] {
      HasParts(image, at, Written(es[0]), AllWritten(es[1..]));
      WrittenStructureIsRead(image, at, es[0]);
      var s := ReadStructure(image, at).value;
      ReadSays(image, s, es[0]);
      WalkInvertsWriting(image, s.next, es[1..]);
      forall i | 0 <= i < |es| ensures Says(image, Walk(image, at, |es|).value.0[i], es[i]) {
        if i > 0 { assert es[i] == es[1..][i - 1]; }
      }
    }
  }
}
