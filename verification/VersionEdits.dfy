// Version edits as manifest records (db/version_edit.cc).
module VersionEdits {
  import opened Keys
  import opened Coding

  const LEVELS: nat := 7

  datatype FileRecord = FileRecord(number: nat, size: nat, smallest: Bytes, largest: Bytes)

  /** One tagged field of a record. */
  datatype Field =
    | Comparator(name: Bytes)
    | LogNumber(number: nat)
    | NextFile(number: nat)
    | LastSequence(number: nat)
    | CompactPointer(level: nat, key: Bytes)
    | Deleted(level: nat, number: nat)
    | New(level: nat, file: FileRecord)
    | PrevLogNumber(number: nat)

  datatype Status = Ok | Corruption(reason: string)

  /** The contents of an edit. Deleted files are a set; they are listed in order. */
  datatype Edit = Edit(comparator: Option<Bytes>, logNumber: Option<nat>, prevLogNumber: Option<nat>, nextFile: Option<nat>,
                       lastSequence: Option<nat>, compactPointers: seq<(nat, Bytes)>, deletedFiles: seq<(nat, nat)>,
                       newFiles: seq<(nat, FileRecord)>)

  function EmptyEdit(pointers: seq<(nat, Bytes)>): Edit {
    Edit(None, None, None, None, None, pointers, [], [])
  }

  // ----- fields as bytes -----

  function TagOf(f: Field): nat {
    match f
    case Comparator(_) => 1
    case LogNumber(_) => 2
    case NextFile(_) => 3
    case LastSequence(_) => 4
    case CompactPointer(_, _) => 5
    case Deleted(_, _) => 6
    case New(_, _) => 7
    case PrevLogNumber(_) => 9
  }

  function Body(f: Field): Bytes {
    match f
    case Comparator(name) => LengthPrefixed(name)
    case LogNumber(n) => Varint(n)
    case NextFile(n) => Varint(n)
    case LastSequence(n) => Varint(n)
    case CompactPointer(level, key) => Varint(level) + LengthPrefixed(key)
    case Deleted(level, n) => Varint(level) + Varint(n)
    case New(level, file) =>
      Varint(level) + (Varint(file.number) + (Varint(file.size) + (LengthPrefixed(file.smallest) + LengthPrefixed(file.largest))))
    case PrevLogNumber(n) => Varint(n)
  }

  ghost predicate Fits(f: Field) {
    match f
    case Comparator(name) => |name| < TWO_32
    case LogNumber(n) => n < TWO_64
    case NextFile(n) => n < TWO_64
    case LastSequence(n) => n < TWO_64
    case CompactPointer(level, key) => level < LEVELS && |key| < TWO_32
    case Deleted(level, n) => level < LEVELS && n < TWO_64
    case New(level, file) =>
      level < LEVELS && file.number < TWO_64 && file.size < TWO_64 && |file.smallest| < TWO_32 && |file.largest| < TWO_32
    case PrevLogNumber(n) => n < TWO_64
  }

  function GetLevel(bs: Bytes): (r: Option<(nat, Bytes)>)
    ensures r.Some? ==> |r.value.1| < |bs| && r.value.0 < LEVELS
  {
    match GetVarint32(bs)
    case Some((v, rest)) => if v < LEVELS then Some((v, rest)) else None
    case None => None
  }

  /** A level is a number below 7; any other is refused. */
  lemma {:induction false} LevelIsRead(bs: Bytes)
    ensures GetLevel(bs) == match GetVarint32(bs)
      case Some((v, rest)) => if v < 7 then Some((v, rest)) else None
      case None => None
  {
  }

  /** The field after its tag, and the rest of the input; nothing if it is malformed. */
  function ParseBody(tag: nat, bs: Bytes): (r: Option<(Field, Bytes)>)
    ensures r.Some? ==> |r.value.1| < |bs|
  {
    if tag == 1 then
      match GetLengthPrefixed(bs) case Some((s, rest)) => Some((Comparator(s), rest)) case None => None
    else if tag == 2 then
      match GetVarint64(bs) case Some((n, rest)) => Some((LogNumber(n), rest)) case None => None
    else if tag == 3 then
      match GetVarint64(bs) case Some((n, rest)) => Some((NextFile(n), rest)) case None => None
    else if tag == 4 then
      match GetVarint64(bs) case Some((n, rest)) => Some((LastSequence(n), rest)) case None => None
    else if tag == 9 then
      match GetVarint64(bs) case Some((n, rest)) => Some((PrevLogNumber(n), rest)) case None => None
    else if tag == 5 then
      match GetLevel(bs)
      case None => None
      case Some((level, r1)) =>
        match GetLengthPrefixed(r1) case Some((key, rest)) => Some((CompactPointer(level, key), rest)) case None => None
    else if tag == 6 then
      match GetLevel(bs)
      case None => None
      case Some((level, r1)) =>
        match GetVarint64(r1) case Some((n, rest)) => Some((Deleted(level, n), rest)) case None => None
    else if tag == 7 then ParseNew(bs)
    else None
  }

  function ParseNew(bs: Bytes): (r: Option<(Field, Bytes)>)
    ensures r.Some? ==> |r.value.1| < |bs|
  {
    match GetLevel(bs)
    case None => None
    case Some((level, r1)) =>
      match GetVarint64(r1)
      case None => None
      case Some((number, r2)) =>
        match GetVarint64(r2)
        case None => None
        case Some((size, r3)) =>
          match GetLengthPrefixed(r3)
          case None => None
          case Some((smallest, r4)) =>
            match GetLengthPrefixed(r4)
            case None => None
            case Some((largest, rest)) => Some((New(level, FileRecord(number, size, smallest, largest)), rest))
  }

  /** What is wrong with a record whose field with this tag does not parse. */
  function Complaint(tag: nat): string {
    if tag == 1 then "comparator name" else if tag == 2 then "log number" else if tag == 3 then "next file number"
    else if tag == 4 then "last sequence number" else if tag == 5 then "compaction pointer" else if tag == 6 then "deleted file"
    else if tag == 7 then "new-file entry" else if tag == 9 then "previous log number" else "unknown tag"
  }

  lemma {:induction false} LevelRoundTrip(level: nat, rest: Bytes)
    requires level < LEVELS
    ensures GetLevel(Varint(level) + rest) == Some((level, rest))
  {
    GetVarint32RoundTrip(level, rest);
  }

  lemma {:induction false} Join(a: Bytes, b: Bytes, c: Bytes)
    ensures (a + b) + c == a + (b + c)
  {
  }

  lemma {:induction false} NewRoundTrip(level: nat, file: FileRecord, rest: Bytes)
    requires Fits(New(level, file))
    ensures ParseNew(Body(New(level, file)) + rest) == Some((New(level, file), rest))
  {
    var e := LengthPrefixed(file.largest) + rest;
    var d := LengthPrefixed(file.smallest) + e;
    var c := Varint(file.size) + d;
    var b := Varint(file.number) + c;
    LengthPrefixedRoundTrip(file.largest, rest);
    LengthPrefixedRoundTrip(file.smallest, e);
    GetVarint64RoundTrip(file.size, d);
    GetVarint64RoundTrip(file.number, c);
    LevelRoundTrip(level, b);
    NewRegroup(Varint(level), Varint(file.number), Varint(file.size), LengthPrefixed(file.smallest),
        LengthPrefixed(file.largest), rest);
  }

  lemma {:induction false} NewRegroup(a: Bytes, b: Bytes, c: Bytes, d: Bytes, e: Bytes, rest: Bytes)
    ensures (a + (b + (c + (d + e)))) + rest == a + (b + (c + (d + (e + rest))))
  {
  }

  lemma {:induction false} BodyRoundTrip(f: Field, rest: Bytes)
    requires Fits(f)
    ensures ParseBody(TagOf(f), Body(f) + rest) == Some((f, rest))
  {
    match f
    case Comparator(name) => LengthPrefixedRoundTrip(name, rest);
    case LogNumber(n) => GetVarint64RoundTrip(n, rest);
    case NextFile(n) => GetVarint64RoundTrip(n, rest);
    case LastSequence(n) => GetVarint64RoundTrip(n, rest);
    case PrevLogNumber(n) => GetVarint64RoundTrip(n, rest);
    case CompactPointer(level, key) =>
      Join(Varint(level), LengthPrefixed(key), rest);
      LevelRoundTrip(level, LengthPrefixed(key) + rest);
      LengthPrefixedRoundTrip(key, rest);
    case Deleted(level, n) =>
      Join(Varint(level), Varint(n), rest);
      LevelRoundTrip(level, Varint(n) + rest);
      GetVarint64RoundTrip(n, rest);
    case New(level, file) => NewRoundTrip(level, file, rest);
  }

  function FieldBytes(f: Field): Bytes {
    Varint(TagOf(f)) + Body(f)
  }

  /** In numbers: each field is a tag from 1 to 9 and its parts; 8 is no longer in use. */
  lemma {:induction false} FieldLayout(f: Field)
    ensures FieldBytes(f) == match f
      case Comparator(name) => [1] + LengthPrefixed(name)
      case LogNumber(n) => [2] + Varint(n)
      case NextFile(n) => [3] + Varint(n)
      case LastSequence(n) => [4] + Varint(n)
      case CompactPointer(level, key) => [5] + Varint(level) + LengthPrefixed(key)
      case Deleted(level, n) => [6] + Varint(level) + Varint(n)
      case New(level, file) =>
        [7] + Varint(level) + Varint(file.number) + Varint(file.size) + LengthPrefixed(file.smallest) + LengthPrefixed(file.largest)
      case PrevLogNumber(n) => [9] + Varint(n)
  {
    VarintStep(TagOf(f));
  }

  function FieldsBytes(fs: seq<Field>): Bytes {
    if |fs| == 0 then [] else FieldBytes(fs[0]) + FieldsBytes(fs[1..])
  }

  lemma {:induction false} FieldsAppend(a: seq<Field>, b: seq<Field>)
    ensures FieldsBytes(a + b) == FieldsBytes(a) + FieldsBytes(b)
  {
    if |a| == 0 {
      assert a + b == b;
    } else {
      assert (a + b)[1..] == a[1..] + b;
      FieldsAppend(a[1..], b);
    }
  }

  lemma {:induction false} FieldsUpTo(fs: seq<Field>, i: nat)
    requires i < |fs|
    ensures FieldsBytes(fs[..i + 1]) == FieldsBytes(fs[..i]) + FieldBytes(fs[i])
  {
    FieldsAppend(fs[..i], [fs[i]]);
    assert fs[..i + 1] == fs[..i] + [fs[i]];
    assert [fs[i]][1..] == [] && FieldsBytes([]) == [];
    assert FieldsBytes([fs[i]]) == FieldBytes(fs[i]) + [];
  }

  /** The fields of a record up to its end or to the first that is malformed. */
  function ParseFields(bs: Bytes): (seq<Field>, Status)
    decreases |bs|
  {
    match GetVarint32(bs)
    case None => ([], if |bs| == 0 then Ok else Corruption("invalid tag"))
    case Some((tag, body)) =>
      match ParseBody(tag, body)
      case None => ([], Corruption(Complaint(tag)))
      case Some((f, rest)) =>
        var (fs, status) := ParseFields(rest);
        ([f] + fs, status)
  }

  lemma {:induction false} EmptyHasNoTag()
    ensures GetVarint32([]).None?
  {
    OpenGetVarint([]);
  }

  lemma {:induction false} FieldsRoundTrip(fs: seq<Field>)
    requires forall i :: 0 <= i < |fs| ==> Fits(fs[i])
    ensures ParseFields(FieldsBytes(fs)) == (fs, Ok)
  {
    EmptyHasNoTag();
    if |fs| > 0 {
      var rest := FieldsBytes(fs[1..]);
      Join(Varint(TagOf(fs[0])), Body(fs[0]), rest);
      GetVarint32RoundTrip(TagOf(fs[0]), Body(fs[0]) + rest);
      BodyRoundTrip(fs[0], rest);
      FieldsRoundTrip(fs[1..]);
      assert [fs[0]] + fs[1..] == fs;
    }
  }

  // ----- edits as fields -----

  /** Ordered as `std::set` orders level and number. */
  predicate PairLess(a: (nat, nat), b: (nat, nat)) {
    a.0 < b.0 || (a.0 == b.0 && a.1 < b.1)
  }

  ghost predicate SetOk(s: seq<(nat, nat)>) {
    forall i, j :: 0 <= i < j < |s| ==> PairLess(s[i], s[j])
  }

  function SetInsert(s: seq<(nat, nat)>, x: (nat, nat)): seq<(nat, nat)> {
    if |s| == 0 then [x]
    else if s[|s| - 1] == x then s
    else if PairLess(s[|s| - 1], x) then s + [x]
    else SetInsert(s[..|s| - 1], x) + [s[|s| - 1]]
  }

  /** Insertion keeps the order, and adds exactly one element. */
  lemma {:induction false} SetInsertOk(s: seq<(nat, nat)>, x: (nat, nat))
    requires SetOk(s)
    ensures SetOk(SetInsert(s, x)) && forall y :: y in SetInsert(s, x) <==> y in s || y == x
  {
    if |s| > 0 && s[|s| - 1] != x && !PairLess(s[|s| - 1], x) {
      var n := |s| - 1;
      SetInsertOk(s[..n], x);
      var r := SetInsert(s[..n], x);
      forall i | 0 <= i < |r| ensures PairLess(r[i], s[n]) {
        assert r[i] in r;
        assert r[i] in s[..n] || r[i] == x;
      }
      assert s == s[..n] + [s[n]];
    }
  }

  function Pointers(ps: seq<(nat, Bytes)>): (r: seq<Field>)
    ensures |r| == |ps| && forall i :: 0 <= i < |r| ==> r[i] == CompactPointer(ps[i].0, ps[i].1)
  {
    seq(|ps|, i requires 0 <= i < |ps| => CompactPointer(ps[i].0, ps[i].1))
  }

  function Deletions(ds: seq<(nat, nat)>): (r: seq<Field>)
    ensures |r| == |ds| && forall i :: 0 <= i < |r| ==> r[i] == Deleted(ds[i].0, ds[i].1)
  {
    seq(|ds|, i requires 0 <= i < |ds| => Deleted(ds[i].0, ds[i].1))
  }

  function Additions(ns: seq<(nat, FileRecord)>): (r: seq<Field>)
    ensures |r| == |ns| && forall i :: 0 <= i < |r| ==> r[i] == New(ns[i].0, ns[i].1)
  {
    seq(|ns|, i requires 0 <= i < |ns| => New(ns[i].0, ns[i].1))
  }

  /** The single-valued fields, in the order in which they are written. */
  function Singles(e: Edit): seq<Field> {
    (if e.comparator.Some? then [Comparator(e.comparator.value)] else [])
    + (if e.logNumber.Some? then [LogNumber(e.logNumber.value)] else [])
    + (if e.prevLogNumber.Some? then [PrevLogNumber(e.prevLogNumber.value)] else [])
    + (if e.nextFile.Some? then [NextFile(e.nextFile.value)] else [])
    + (if e.lastSequence.Some? then [LastSequence(e.lastSequence.value)] else [])
  }

  function FieldsOf(e: Edit): seq<Field> {
    Singles(e) + (Pointers(e.compactPointers) + (Deletions(e.deletedFiles) + Additions(e.newFiles)))
  }

  ghost predicate EditFits(e: Edit) {
    SetOk(e.deletedFiles) && forall i :: 0 <= i < |FieldsOf(e)| ==> Fits(FieldsOf(e)[i])
  }

  /** What a decoded field does to the edit. */
  function Put(e: Edit, f: Field): Edit {
    match f
    case Comparator(name) => e.(comparator := Some(name))
    case LogNumber(n) => e.(logNumber := Some(n))
    case PrevLogNumber(n) => e.(prevLogNumber := Some(n))
    case NextFile(n) => e.(nextFile := Some(n))
    case LastSequence(n) => e.(lastSequence := Some(n))
    case CompactPointer(level, key) => e.(compactPointers := e.compactPointers + [(level, key)])
    case Deleted(level, n) => e.(deletedFiles := SetInsert(e.deletedFiles, (level, n)))
    case New(level, file) => e.(newFiles := e.newFiles + [(level, file)])
  }

  function PutAll(e: Edit, fs: seq<Field>): Edit
    decreases |fs|
  {
    if |fs| == 0 then e else PutAll(Put(e, fs[0]), fs[1..])
  }

  lemma {:induction false} PutAppend(e: Edit, a: seq<Field>, b: seq<Field>)
    ensures PutAll(e, a + b) == PutAll(PutAll(e, a), b)
    decreases |a|
  {
    if |a| == 0 {
      assert a + b == b;
    } else {
      assert (a + b)[1..] == a[1..] + b;
      PutAppend(Put(e, a[0]), a[1..], b);
    }
  }

  lemma {:induction false} PutOne(e: Edit, f: Field)
    ensures PutAll(e, [f]) == Put(e, f) && PutAll(e, []) == e
  {
    assert [f][1..] == [];
  }

  lemma {:induction false} PutPointers(e: Edit, ps: seq<(nat, Bytes)>)
    ensures PutAll(e, Pointers(ps)) == e.(compactPointers := e.compactPointers + ps)
    decreases |ps|
  {
    if |ps| == 0 {
      assert e.compactPointers + ps == e.compactPointers;
    } else {
      assert Pointers(ps)[1..] == Pointers(ps[1..]);
      PutPointers(Put(e, Pointers(ps)[0]), ps[1..]);
      assert e.compactPointers + [ps[0]] + ps[1..] == e.compactPointers + ps;
    }
  }

  lemma {:induction false} PutDeletions(e: Edit, ds: seq<(nat, nat)>)
    requires SetOk(e.deletedFiles + ds)
    ensures PutAll(e, Deletions(ds)) == e.(deletedFiles := e.deletedFiles + ds)
    decreases |ds|
  {
    if |ds| == 0 {
      assert e.deletedFiles + ds == e.deletedFiles;
    } else {
      assert Deletions(ds)[1..] == Deletions(ds[1..]);
      var n := |e.deletedFiles|;
      assert n > 0 ==> PairLess((e.deletedFiles + ds)[n - 1], (e.deletedFiles + ds)[n]);
      assert SetInsert(e.deletedFiles, ds[0]) == e.deletedFiles + [ds[0]];
      assert e.deletedFiles + [ds[0]] + ds[1..] == e.deletedFiles + ds;
      PutDeletions(Put(e, Deletions(ds)[0]), ds[1..]);
    }
  }

  lemma {:induction false} PutAdditions(e: Edit, ns: seq<(nat, FileRecord)>)
    ensures PutAll(e, Additions(ns)) == e.(newFiles := e.newFiles + ns)
    decreases |ns|
  {
    if |ns| == 0 {
      assert e.newFiles + ns == e.newFiles;
    } else {
      assert Additions(ns)[1..] == Additions(ns[1..]);
      PutAdditions(Put(e, Additions(ns)[0]), ns[1..]);
      assert e.newFiles + [ns[0]] + ns[1..] == e.newFiles + ns;
    }
  }

  lemma {:induction false} PutSingles(e: Edit, pointers: seq<(nat, Bytes)>)
    ensures PutAll(EmptyEdit(pointers), Singles(e))
            == Edit(e.comparator, e.logNumber, e.prevLogNumber, e.nextFile, e.lastSequence, pointers, [], [])
  {
    var a: seq<Field> := if e.comparator.Some? then [Comparator(e.comparator.value)] else [];
    var b: seq<Field> := if e.logNumber.Some? then [LogNumber(e.logNumber.value)] else [];
    var c: seq<Field> := if e.prevLogNumber.Some? then [PrevLogNumber(e.prevLogNumber.value)] else [];
    var d: seq<Field> := if e.nextFile.Some? then [NextFile(e.nextFile.value)] else [];
    var f: seq<Field> := if e.lastSequence.Some? then [LastSequence(e.lastSequence.value)] else [];
    var e0 := EmptyEdit(pointers);
    var e1 := e0.(comparator := e.comparator);
    var e2 := e1.(logNumber := e.logNumber);
    var e3 := e2.(prevLogNumber := e.prevLogNumber);
    var e4 := e3.(nextFile := e.nextFile);
    FiveParts(e0, a, b, c, d, f);
    if e.comparator.Some? { PutOne(e0, a[0]); }
    if e.logNumber.Some? { PutOne(e1, b[0]); }
    if e.prevLogNumber.Some? { PutOne(e2, c[0]); }
    if e.nextFile.Some? { PutOne(e3, d[0]); }
    if e.lastSequence.Some? { PutOne(e4, f[0]); }
  }

  lemma {:induction false} FiveParts(e: Edit, a: seq<Field>, b: seq<Field>, c: seq<Field>, d: seq<Field>, f: seq<Field>)
    ensures PutAll(e, a + b + c + d + f) == PutAll(PutAll(PutAll(PutAll(PutAll(e, a), b), c), d), f)
  {
    PutAppend(e, a + b + c + d, f);
    PutAppend(e, a + b + c, d);
    PutAppend(e, a + b, c);
    PutAppend(e, a, b);
  }

  /** Decoding what an edit encodes gives the edit back, after whatever compaction
      pointers were there before: they are the one thing that is not cleared. */
  lemma {:induction false} EditRoundTrip(e: Edit, pointers: seq<(nat, Bytes)>)
    requires EditFits(e)
    ensures ParseFields(FieldsBytes(FieldsOf(e))) == (FieldsOf(e), Ok)
    ensures PutAll(EmptyEdit(pointers), FieldsOf(e)) == e.(compactPointers := pointers + e.compactPointers)
    ensures PutAll(EmptyEdit(pointers), FieldsOf(e)) == e <==> pointers == []
  {
    FieldsRoundTrip(FieldsOf(e));
    PutSingles(e, pointers);
    var e1 := PutAll(EmptyEdit(pointers), Singles(e));
    PutAppend(EmptyEdit(pointers), Singles(e),
        Pointers(e.compactPointers) + (Deletions(e.deletedFiles) + Additions(e.newFiles)));
    PutAppend(e1, Pointers(e.compactPointers), Deletions(e.deletedFiles) + Additions(e.newFiles));
    PutPointers(e1, e.compactPointers);
    var e2 := e1.(compactPointers := pointers + e.compactPointers);
    PutAppend(e2, Deletions(e.deletedFiles), Additions(e.newFiles));
    assert [] + e.deletedFiles == e.deletedFiles && [] + e.newFiles == e.newFiles && [] + e.compactPointers == e.compactPointers;
    PutDeletions(e2, e.deletedFiles);
    PutAdditions(e2.(deletedFiles := e.deletedFiles), e.newFiles);
    assert |pointers + e.compactPointers| == |e.compactPointers| ==> pointers == [];
  }

  /** One compaction pointer left over from an earlier use, and an edit that has none: what
      is decoded is not what was encoded. */
  lemma {:induction false} LeftOverPointerStays() returns (e: Edit, pointers: seq<(nat, Bytes)>)
    ensures EditFits(e) && |pointers| == 1 && e.compactPointers == []
    ensures ParseFields(FieldsBytes(FieldsOf(e))) == (FieldsOf(e), Ok)
    ensures PutAll(EmptyEdit(pointers), FieldsOf(e)) == e.(compactPointers := pointers) != e
  {
    e, pointers := EmptyEdit([]).(logNumber := Some(7)), [(1, [97])];
    assert FieldsOf(e) == [LogNumber(7)];
    EditRoundTrip(e, pointers);
    assert pointers + e.compactPointers == pointers;
  }

  class VersionEdit {
    var edit: Edit

    constructor ()
      ensures edit == EmptyEdit([])
    {
      edit := EmptyEdit([]);
    }

    /** Everything but the compaction pointers. */
    method Clear()
      modifies this
      ensures edit == EmptyEdit(old(edit).compactPointers)
    {
      edit := edit.(comparator := None, logNumber := None, prevLogNumber := None, nextFile := None, lastSequence := None);
      edit := edit.(deletedFiles := [], newFiles := []);
    }

    method DeleteFile(level: nat, number: nat)
      requires SetOk(edit.deletedFiles)
      modifies this
      ensures SetOk(edit.deletedFiles) && edit == old(edit).(deletedFiles := edit.deletedFiles)
      ensures forall y :: y in edit.deletedFiles <==> y in old(edit).deletedFiles || y == (level, number)
    {
      SetInsertOk(edit.deletedFiles, (level, number));
      edit := edit.(deletedFiles := SetInsert(edit.deletedFiles, (level, number)));
    }

    method EncodeTo() returns (dst: Bytes)
      ensures dst == FieldsBytes(FieldsOf(edit))
    {
      dst := [];
      var fs := FieldsOf(edit);
      for i := 0 to |fs|
        invariant dst == FieldsBytes(fs[..i])
      {
        FieldsUpTo(fs, i);
        dst := dst + (Varint(TagOf(fs[i])) + Body(fs[i]));
      }
      assert fs[..|fs|] == fs;
    }

    method DecodeFrom(src: Bytes) returns (status: Status)
      modifies this
      ensures status == ParseFields(src).1
      ensures edit == PutAll(EmptyEdit(old(edit).compactPointers), ParseFields(src).0)
    {
      Clear();
      var input := src;
      ghost var want := PutAll(edit, ParseFields(src).0);
      while true
        invariant ParseFields(input).1 == ParseFields(src).1 && PutAll(edit, ParseFields(input).0) == want
        decreases |input|
      {
        match GetVarint32(input) {
          case None =>
            return if |input| == 0 then Ok else Corruption("invalid tag");
          case Some((tag, body)) =>
            match ParseBody(tag, body) {
              case None =>
                return Corruption(Complaint(tag));
              case Some((f, rest)) =>
                assert ([f] + ParseFields(rest).0)[1..] == ParseFields(rest).0;
                edit := Put(edit, f);
                input := rest;
            }
        }
      }
    }
  }
}
