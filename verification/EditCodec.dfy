/** Manifest records as bytes (db/version_edit.cc). */
module EditCodec {
  import opened Wrappers
  import opened Bytes
  import opened Coding

  const LEVELS: nat := 7

  datatype NewFile = NewFile(number: nat, size: nat, smallest: seq<byte>, largest: seq<byte>)

  datatype Edit = Edit(
    comparator: Option<seq<byte>>, logNumber: Option<nat>, prevLogNumber: Option<nat>, nextFileNumber: Option<nat>,
    lastSequence: Option<nat>, compactPointers: seq<(nat, seq<byte>)>, deletedFiles: set<(nat, nat)>,
    newFiles: seq<(nat, NewFile)>)

  // ------------------------------------------------------------------- fields

  /** A field is a tag and a few parts: a level, a 64-bit number, or a string with its length. */
  datatype Kind = Level | Number | Text

  datatype Part = LevelPart(level: nat) | NumberPart(number: nat) | TextPart(text: seq<byte>) {
    function Kind(): Kind {
      match this case LevelPart(_) => Level case NumberPart(_) => Number case TextPart(_) => Text
    }
    ghost predicate Storable() {
      match this case LevelPart(n) => n < LEVELS case NumberPart(n) => n < TWO_64 case TextPart(t) => |t| < TWO_32
    }
  }

  datatype Field = Field(tag: nat, parts: seq<Part>)

  const COMPARATOR: nat := 1
  const LOG_NUMBER: nat := 2
  const NEXT_FILE_NUMBER: nat := 3
  const LAST_SEQUENCE: nat := 4
  const COMPACT_POINTER: nat := 5
  const DELETED_FILE: nat := 6
  const NEW_FILE: nat := 7
  const PREV_LOG_NUMBER: nat := 9

  function Shape(tag: nat): Option<seq<Kind>> {
    if tag == COMPARATOR then Some([Text])
    else if tag == LOG_NUMBER || tag == PREV_LOG_NUMBER || tag == NEXT_FILE_NUMBER || tag == LAST_SEQUENCE then
      Some([Number])
    else if tag == COMPACT_POINTER then Some([Level, Text])
    else if tag == DELETED_FILE then Some([Level, Number])
    else if tag == NEW_FILE then Some([Level, Number, Number, Text, Text])
    else None
  }

  function Kinds(parts: seq<Part>): seq<Kind> {
    seq(|parts|, i requires 0 <= i < |parts| => parts[i].Kind())
  }

  ghost predicate ValidField(f: Field) {
    f.tag < TWO_32 && Shape(f.tag) == Some(Kinds(f.parts)) && AllStorable(f.parts)
  }

  // ------------------------------------------------------------------ writing

  function EncodePart(part: Part): seq<byte> {
    match part
    case LevelPart(n) => EncodeVarint(n)
    case NumberPart(n) => EncodeVarint(n)
    case TextPart(t) => EncodeVarint(|t|) + t
  }

  function EncodeParts(put: Part -> seq<byte>, parts: seq<Part>): seq<byte> {
    if parts == [] then [] else put(parts[0]) + EncodeParts(put, parts[1..])
  }

  function EncodeField(f: Field): (r: seq<byte>)
    ensures |r| > 0
  {
    EncodeVarint(f.tag) + EncodeParts(EncodePart, f.parts)
  }

  function EncodeFields(put: Field -> seq<byte>, fields: seq<Field>): seq<byte> {
    if fields == [] then [] else put(fields[0]) + EncodeFields(put, fields[1..])
  }

  // ------------------------------------------------------------------ reading

  /** A part, and the position after it. */
  type Get = (Kind, nat) -> Option<(Part, nat)>

  function ParsePart(s: seq<byte>, kind: Kind, p: nat): (r: Option<(Part, nat)>)
    ensures r.Some? ==> p < r.value.1 <= |s|
  {
    if p > |s| then None else
      match kind
      case Level =>
        (match GetVarint32(s, p, |s|)
         case None => None
         case Some(d) => if d.value < LEVELS then Some((LevelPart(d.value), d.next)) else None)
      case Number =>
        (match GetVarint64(s, p, |s|)
         case None => None
         case Some(d) => Some((NumberPart(d.value), d.next)))
      case Text =>
        match GetVarint32(s, p, |s|)
        case None => None
        case Some(d) =>
          if d.next + d.value <= |s| then Some((TextPart(s[d.next..d.next + d.value]), d.next + d.value)) else None
  }

  function PartReader(s: seq<byte>): Get {
    (kind: Kind, p: nat) => ParsePart(s, kind, p)
  }

  function ParseParts(get: Get, kinds: seq<Kind>, p: nat): Option<(seq<Part>, nat)>
    decreases |kinds|
  {
    if kinds == [] then Some(([], p)) else
      match get(kinds[0], p)
      case None => None
      case Some((part, q)) =>
        match ParseParts(get, kinds[1..], q)
        case None => None
        case Some((parts, r)) => Some(([part] + parts, r))
  }

  /** A field, or a tag that is unknown or whose parts are not there, or no tag at all. */
  datatype Parsed = Parsed(field: Field, next: nat) | Bad(tag: nat) | NoTag

  function ParseField(s: seq<byte>, p: nat): Parsed
    requires p <= |s|
  {
    match GetVarint32(s, p, |s|)
    case None => NoTag
    case Some(d) =>
      match Shape(d.value)
      case None => Bad(d.value)
      case Some(kinds) =>
        match ParseParts(PartReader(s), kinds, d.next)
        case None => Bad(d.value)
        case Some((parts, next)) => Parsed(Field(d.value, parts), next)
  }

  /** Parts that were written are read back. */
  ghost predicate Reads(get: Get, put: Part -> seq<byte>, s: seq<byte>) {
    forall part: Part, p: nat {:trigger Stands(s, p, put(part))} :: part.Storable() && Stands(s, p, put(part)) ==>
      get(part.Kind(), p) == Some((part, p + |put(part)|))
  }

  lemma PartRoundTrip(s: seq<byte>, part: Part, p: nat)
    requires part.Storable() && Stands(s, p, EncodePart(part))
    ensures ParsePart(s, part.Kind(), p) == Some((part, p + |EncodePart(part)|))
  {
    match part
    case LevelPart(n) => Varint32RoundTrip(s, p, |s|, n);
    case NumberPart(n) => Varint64RoundTrip(s, p, |s|, n);
    case TextPart(t) =>
      StandsParts(s, p, EncodeVarint(|t|), t);
      Varint32RoundTrip(s, p, |s|, |t|);
  }

  lemma ReaderReads(s: seq<byte>)
    ensures Reads(PartReader(s), EncodePart, s)
  {
    forall part: Part, p: nat | part.Storable() && Stands(s, p, EncodePart(part))
      ensures PartReader(s)(part.Kind(), p) == Some((part, p + |EncodePart(part)|))
    {
      PartRoundTrip(s, part, p);
    }
  }

  ghost predicate AllStorable(parts: seq<Part>) {
    forall part :: part in parts ==> part.Storable()
  }

  lemma PartsStep(get: Get, part: Part, rest: seq<Part>, p: nat, q: nat, r: nat)
    requires get(part.Kind(), p) == Some((part, q)) && ParseParts(get, Kinds(rest), q) == Some((rest, r))
    ensures ParseParts(get, Kinds([part] + rest), p) == Some(([part] + rest, r))
  {
    var kinds := Kinds([part] + rest);
    assert kinds[0] == part.Kind() && kinds[1..] == Kinds(rest);
  }

  lemma FirstPart(get: Get, put: Part -> seq<byte>, s: seq<byte>, part: Part, code: seq<byte>, rest: seq<byte>, p: nat)
    requires Reads(get, put, s) && part.Storable() && code == put(part) && Stands(s, p, code + rest)
    ensures get(part.Kind(), p) == Some((part, p + |code|)) && Stands(s, p + |code|, rest)
  {
    StandsParts(s, p, code, rest);
  }

  lemma {:induction false} PartsRoundTrip(get: Get, put: Part -> seq<byte>, s: seq<byte>, parts: seq<Part>, p: nat)
    requires Reads(get, put, s) && AllStorable(parts) && Stands(s, p, EncodeParts(put, parts))
    ensures ParseParts(get, Kinds(parts), p) == Some((parts, p + |EncodeParts(put, parts)|))
    decreases |parts|
  {
    if parts != [] {
      var code := put(parts[0]);
      FirstPart(get, put, s, parts[0], code, EncodeParts(put, parts[1..]), p);
      PartsRoundTrip(get, put, s, parts[1..], p + |code|);
      PartsStep(get, parts[0], parts[1..], p, p + |code|, p + |EncodeParts(put, parts)|);
      assert parts == [parts[0]] + parts[1..];
    }
  }

  lemma FieldRoundTrip(s: seq<byte>, f: Field, p: nat)
    requires ValidField(f) && Stands(s, p, EncodeField(f))
    ensures ParseField(s, p) == Parsed(f, p + |EncodeField(f)|)
  {
    StandsParts(s, p, EncodeVarint(f.tag), EncodeParts(EncodePart, f.parts));
    Varint32RoundTrip(s, p, |s|, f.tag);
    ReaderReads(s);
    PartsRoundTrip(PartReader(s), EncodePart, s, f.parts, p + |EncodeVarint(f.tag)|);
  }

  // -------------------------------------------------------------- whole edits

  /** What one field adds to an edit. */
  function ApplyField(e: Edit, f: Field): Edit
    requires Shape(f.tag) == Some(Kinds(f.parts))
  {
    var parts := f.parts;
    assert forall i :: 0 <= i < |parts| ==> Kinds(parts)[i] == parts[i].Kind();
    if f.tag == COMPARATOR then e.(comparator := Some(parts[0].text))
    else if f.tag == LOG_NUMBER then e.(logNumber := Some(parts[0].number))
    else if f.tag == PREV_LOG_NUMBER then e.(prevLogNumber := Some(parts[0].number))
    else if f.tag == NEXT_FILE_NUMBER then e.(nextFileNumber := Some(parts[0].number))
    else if f.tag == LAST_SEQUENCE then e.(lastSequence := Some(parts[0].number))
    else if f.tag == COMPACT_POINTER then e.(compactPointers := e.compactPointers + [(parts[0].level, parts[1].text)])
    else if f.tag == DELETED_FILE then e.(deletedFiles := e.deletedFiles + {(parts[0].level, parts[1].number)})
    else
      e.(newFiles := e.newFiles + [(parts[0].level,
                                    NewFile(parts[1].number, parts[2].number, parts[3].text, parts[4].text))])
  }

  /** The fields an edit is written as; `deleted` lists the deleted files in the order of the set. */
  function EditFields(e: Edit, deleted: seq<(nat, nat)>): seq<Field> {
    Scalars(e) + Pointers(e.compactPointers) + Deletions(deleted) + Additions(e.newFiles)
  }

  function PointerField(c: (nat, seq<byte>)): Field { Field(COMPACT_POINTER, [LevelPart(c.0), TextPart(c.1)]) }

  function DeletedField(d: (nat, nat)): Field { Field(DELETED_FILE, [LevelPart(d.0), NumberPart(d.1)]) }

  function NewFileField(n: (nat, NewFile)): Field {
    Field(NEW_FILE,
          [LevelPart(n.0), NumberPart(n.1.number), NumberPart(n.1.size), TextPart(n.1.smallest), TextPart(n.1.largest)])
  }

  /** What an edit holds before decoding: everything is cleared but the compaction pointers. */
  function Cleared(e: Edit): Edit {
    Edit(None, None, None, None, None, e.compactPointers, {}, [])
  }

  datatype Result = Ok(edit: Edit) | Corruption(tag: Option<nat>)

  /** A reader of fields moves forward inside the bytes, and gives fields of the right shape. */
  ghost predicate Forward(parse: nat -> Parsed, limit: nat) {
    forall p: nat :: p <= limit && parse(p).Parsed? ==>
      p < parse(p).next <= limit && Shape(parse(p).field.tag) == Some(Kinds(parse(p).field.parts))
  }

  /** Decoding from position `p` on into an edit. */
  ghost function DecodeFields(parse: nat -> Parsed, e: Edit, limit: nat, p: nat): Result
    requires p <= limit && Forward(parse, limit)
    decreases limit - p
  {
    match parse(p)
    case NoTag => if p < limit then Corruption(None) else Ok(e)
    case Bad(tag) => Corruption(Some(tag))
    case Parsed(f, next) => DecodeFields(parse, ApplyField(e, f), limit, next)
  }

  function FieldReader(s: seq<byte>): nat -> Parsed {
    (p: nat) => if p <= |s| then ParseField(s, p) else NoTag
  }

  lemma ReaderIsForward(s: seq<byte>)
    ensures Forward(FieldReader(s), |s|)
  {
    forall p: nat | p <= |s| && FieldReader(s)(p).Parsed?
      ensures p < FieldReader(s)(p).next <= |s|
      ensures Shape(FieldReader(s)(p).field.tag) == Some(Kinds(FieldReader(s)(p).field.parts))
    {
      ParsedIsForward(s, p);
    }
  }

  /** Decoding bytes into an edit. */
  ghost function Decode(e: Edit, s: seq<byte>): Result {
    ReaderIsForward(s);
    DecodeFields(FieldReader(s), Cleared(e), |s|, 0)
  }

  lemma {:induction false} PartsAreForward(s: seq<byte>, kinds: seq<Kind>, p: nat)
    requires p <= |s|
    ensures ParseParts(PartReader(s), kinds, p).Some? ==>
              var r := ParseParts(PartReader(s), kinds, p).value;
              p <= r.1 <= |s| && Kinds(r.0) == kinds
    decreases |kinds|
  {
    if kinds != [] && ParsePart(s, kinds[0], p).Some? {
      PartsAreForward(s, kinds[1..], ParsePart(s, kinds[0], p).value.1);
    }
  }

  lemma ParsedIsForward(s: seq<byte>, p: nat)
    requires p <= |s|
    ensures var r := ParseField(s, p);
            r.Parsed? ==> p < r.next <= |s| && Shape(r.field.tag) == Some(Kinds(r.field.parts))
  {
    var d := GetVarint32(s, p, |s|);
    if d.Some? && Shape(d.value.value).Some? {
      PartsAreForward(s, Shape(d.value.value).value, d.value.next);
    }
  }

  // --------------------------------------------------------------- round trip

  ghost predicate AllFields(fields: seq<Field>) {
    forall i :: 0 <= i < |fields| ==> ValidField(fields[i])
  }

  ghost function ApplyAll(e: Edit, fields: seq<Field>): Edit
    requires AllFields(fields)
    decreases |fields|
  {
    if fields == [] then e else ApplyAll(ApplyField(e, fields[0]), fields[1..])
  }

  /** Fields that were written are read back, and nothing behind them. */
  ghost predicate ReadsFields(parse: nat -> Parsed, put: Field -> seq<byte>, s: seq<byte>) {
    && parse(|s|) == NoTag
    && forall f: Field, p: nat {:trigger Stands(s, p, put(f))} ::
         ValidField(f) && Stands(s, p, put(f)) ==> parse(p) == Parsed(f, p + |put(f)|)
  }

  lemma ReaderReadsFields(s: seq<byte>)
    ensures ReadsFields(FieldReader(s), EncodeField, s)
  {
    forall f: Field, p: nat | ValidField(f) && Stands(s, p, EncodeField(f))
      ensures FieldReader(s)(p) == Parsed(f, p + |EncodeField(f)|)
    {
      FieldRoundTrip(s, f, p);
    }
  }

  lemma FirstField(parse: nat -> Parsed, put: Field -> seq<byte>, s: seq<byte>, f: Field, code: seq<byte>,
                   rest: seq<byte>, p: nat)
    requires ReadsFields(parse, put, s) && ValidField(f) && code == put(f) && Stands(s, p, code + rest)
    ensures parse(p) == Parsed(f, p + |code|) && p + |code| <= |s| && Stands(s, p + |code|, rest)
  {
    StandsParts(s, p, code, rest);
  }

  lemma ApplyFirst(e: Edit, fields: seq<Field>)
    requires AllFields(fields) && fields != []
    ensures AllFields(fields[1..]) && ApplyAll(e, fields) == ApplyAll(ApplyField(e, fields[0]), fields[1..])
  {
  }

  lemma FieldStep(parse: nat -> Parsed, e: Edit, limit: nat, p: nat, f: Field, next: nat)
    requires p <= limit && Forward(parse, limit) && parse(p) == Parsed(f, next) && ValidField(f)
    ensures next <= limit && DecodeFields(parse, e, limit, p) == DecodeFields(parse, ApplyField(e, f), limit, next)
  {
  }

  /** Decoding applies exactly the fields written, in order, before it meets what stands behind them. */
  lemma {:induction false} FieldsThen(parse: nat -> Parsed, put: Field -> seq<byte>, e: Edit, fields: seq<Field>,
                                      s: seq<byte>, p: nat, end: nat)
    requires Forward(parse, |s|) && ReadsFields(parse, put, s) && AllFields(fields)
    requires Stands(s, p, EncodeFields(put, fields)) && p + |EncodeFields(put, fields)| == end
    ensures end <= |s| && DecodeFields(parse, e, |s|, p) == DecodeFields(parse, ApplyAll(e, fields), |s|, end)
    decreases |fields|
  {
    if fields != [] {
      var code, rest := put(fields[0]), EncodeFields(put, fields[1..]);
      FirstField(parse, put, s, fields[0], code, rest, p);
      FieldStep(parse, e, |s|, p, fields[0], p + |code|);
      FieldsThen(parse, put, ApplyField(e, fields[0]), fields[1..], s, p + |code|, end);
      ApplyFirst(e, fields);
    }
  }

  /** With nothing behind them, that is the whole edit. */
  lemma FieldsDecode(parse: nat -> Parsed, put: Field -> seq<byte>, e: Edit, fields: seq<Field>, s: seq<byte>, p: nat)
    requires Forward(parse, |s|) && ReadsFields(parse, put, s) && AllFields(fields)
    requires Stands(s, p, EncodeFields(put, fields)) && p + |EncodeFields(put, fields)| == |s|
    ensures DecodeFields(parse, e, |s|, p) == Ok(ApplyAll(e, fields))
  {
    FieldsThen(parse, put, e, fields, s, p, |s|);
  }

  lemma {:induction false} ApplyConcat(e: Edit, a: seq<Field>, b: seq<Field>)
    requires AllFields(a) && AllFields(b)
    ensures AllFields(a + b) && ApplyAll(e, a + b) == ApplyAll(ApplyAll(e, a), b)
    decreases |a|
  {
    if a == [] {
      assert a + b == b;
    } else {
      ApplyConcat(ApplyField(e, a[0]), a[1..], b);
      assert (a + b)[1..] == a[1..] + b;
    }
  }

  /** Levels, numbers and lengths are in range. */
  ghost predicate StorableEdit(e: Edit) {
    && (e.comparator.Some? ==> |e.comparator.value| < TWO_32)
    && (e.logNumber.Some? ==> e.logNumber.value < TWO_64) && (e.prevLogNumber.Some? ==> e.prevLogNumber.value < TWO_64)
    && (e.nextFileNumber.Some? ==> e.nextFileNumber.value < TWO_64)
    && (e.lastSequence.Some? ==> e.lastSequence.value < TWO_64)
    && (forall c :: c in e.compactPointers ==> c.0 < LEVELS && |c.1| < TWO_32)
    && (forall d :: d in e.deletedFiles ==> d.0 < LEVELS && d.1 < TWO_64)
    && (forall n :: n in e.newFiles ==> n.0 < LEVELS && n.1.number < TWO_64 && n.1.size < TWO_64
                                        && |n.1.smallest| < TWO_32 && |n.1.largest| < TWO_32)
  }

  function Pointers(cs: seq<(nat, seq<byte>)>): seq<Field> {
    seq(|cs|, i requires 0 <= i < |cs| => PointerField(cs[i]))
  }

  function Deletions(ds: seq<(nat, nat)>): seq<Field> {
    seq(|ds|, i requires 0 <= i < |ds| => DeletedField(ds[i]))
  }

  function Additions(ns: seq<(nat, NewFile)>): seq<Field> {
    seq(|ns|, i requires 0 <= i < |ns| => NewFileField(ns[i]))
  }

  lemma PointerIsValid(c: (nat, seq<byte>))
    requires c.0 < LEVELS && |c.1| < TWO_32
    ensures ValidField(PointerField(c))
  {
    assert Kinds(PointerField(c).parts) == [Level, Text];
  }

  lemma DeletedIsValid(d: (nat, nat))
    requires d.0 < LEVELS && d.1 < TWO_64
    ensures ValidField(DeletedField(d))
  {
    assert Kinds(DeletedField(d).parts) == [Level, Number];
  }

  lemma NewFileIsValid(n: (nat, NewFile))
    requires n.0 < LEVELS && n.1.number < TWO_64 && n.1.size < TWO_64 && |n.1.smallest| < TWO_32
          && |n.1.largest| < TWO_32
    ensures ValidField(NewFileField(n))
  {
    assert Kinds(NewFileField(n).parts) == [Level, Number, Number, Text, Text];
  }

  lemma {:induction false} PointersApply(e: Edit, cs: seq<(nat, seq<byte>)>)
    requires forall c :: c in cs ==> c.0 < LEVELS && |c.1| < TWO_32
    ensures AllFields(Pointers(cs)) && ApplyAll(e, Pointers(cs)) == e.(compactPointers := e.compactPointers + cs)
    decreases |cs|
  {
    if cs == [] {
      assert e.compactPointers + cs == e.compactPointers;
    } else {
      PointerIsValid(cs[0]);
      PointersApply(e.(compactPointers := e.compactPointers + [cs[0]]), cs[1..]);
      assert Pointers(cs)[1..] == Pointers(cs[1..]);
      assert e.compactPointers + [cs[0]] + cs[1..] == e.compactPointers + cs;
    }
  }

  lemma {:induction false} DeletionsApply(e: Edit, ds: seq<(nat, nat)>)
    requires forall d :: d in ds ==> d.0 < LEVELS && d.1 < TWO_64
    ensures AllFields(Deletions(ds))
         && ApplyAll(e, Deletions(ds)) == e.(deletedFiles := e.deletedFiles + (set d | d in ds))
    decreases |ds|
  {
    if ds == [] {
      assert e.deletedFiles + (set d | d in ds) == e.deletedFiles;
    } else {
      DeletedIsValid(ds[0]);
      DeletionsApply(e.(deletedFiles := e.deletedFiles + {ds[0]}), ds[1..]);
      assert Deletions(ds)[1..] == Deletions(ds[1..]);
      assert ds == [ds[0]] + ds[1..];
      assert e.deletedFiles + {ds[0]} + (set d | d in ds[1..]) == e.deletedFiles + (set d | d in ds);
    }
  }

  lemma {:induction false} AdditionsApply(e: Edit, ns: seq<(nat, NewFile)>)
    requires forall n :: n in ns ==> n.0 < LEVELS && n.1.number < TWO_64 && n.1.size < TWO_64
                                     && |n.1.smallest| < TWO_32 && |n.1.largest| < TWO_32
    ensures AllFields(Additions(ns)) && ApplyAll(e, Additions(ns)) == e.(newFiles := e.newFiles + ns)
    decreases |ns|
  {
    if ns == [] {
      assert e.newFiles + ns == e.newFiles;
    } else {
      NewFileIsValid(ns[0]);
      AdditionsApply(e.(newFiles := e.newFiles + [ns[0]]), ns[1..]);
      assert Additions(ns)[1..] == Additions(ns[1..]);
      assert e.newFiles + [ns[0]] + ns[1..] == e.newFiles + ns;
    }
  }

  function Scalars(e: Edit): seq<Field> {
    (if e.comparator.Some? then [Field(COMPARATOR, [TextPart(e.comparator.value)])] else [])
    + (if e.logNumber.Some? then [Field(LOG_NUMBER, [NumberPart(e.logNumber.value)])] else [])
    + (if e.prevLogNumber.Some? then [Field(PREV_LOG_NUMBER, [NumberPart(e.prevLogNumber.value)])] else [])
    + (if e.nextFileNumber.Some? then [Field(NEXT_FILE_NUMBER, [NumberPart(e.nextFileNumber.value)])] else [])
    + (if e.lastSequence.Some? then [Field(LAST_SEQUENCE, [NumberPart(e.lastSequence.value)])] else [])
  }

  lemma TextIsValid(tag: nat, t: seq<byte>)
    requires tag == COMPARATOR && |t| < TWO_32
    ensures ValidField(Field(tag, [TextPart(t)]))
  {
    assert Kinds([TextPart(t)]) == [Text];
  }

  lemma NumberIsValid(tag: nat, n: nat)
    requires tag in {LOG_NUMBER, PREV_LOG_NUMBER, NEXT_FILE_NUMBER, LAST_SEQUENCE} && n < TWO_64
    ensures ValidField(Field(tag, [NumberPart(n)]))
  {
    assert Kinds([NumberPart(n)]) == [Number];
  }

  /** One more field behind the others. */
  lemma ApplySnoc(e: Edit, fields: seq<Field>, f: Field)
    requires AllFields(fields) && ValidField(f)
    ensures AllFields(fields + [f]) && ApplyAll(e, fields + [f]) == ApplyField(ApplyAll(e, fields), f)
  {
    ApplyConcat(e, fields, [f]);
    assert ApplyAll(ApplyAll(e, fields), [f]) == ApplyAll(ApplyField(ApplyAll(e, fields), f), []);
  }

  /** An optional number, behind the others. */
  lemma ApplyOptional(e: Edit, fields: seq<Field>, tag: nat, n: Option<nat>)
    requires AllFields(fields) && tag in {LOG_NUMBER, PREV_LOG_NUMBER, NEXT_FILE_NUMBER, LAST_SEQUENCE}
    requires n.Some? ==> n.value < TWO_64
    ensures var more := fields + (if n.Some? then [Field(tag, [NumberPart(n.value)])] else []);
            && AllFields(more)
            && ApplyAll(e, more)
                == if n.Some? then SetNumber(ApplyAll(e, fields), tag, n.value) else ApplyAll(e, fields)
  {
    if n.Some? {
      NumberIsValid(tag, n.value);
      ApplySnoc(e, fields, Field(tag, [NumberPart(n.value)]));
    } else {
      assert fields + [] == fields;
    }
  }

  function SetNumber(e: Edit, tag: nat, n: nat): Edit {
    if tag == LOG_NUMBER then e.(logNumber := Some(n))
    else if tag == PREV_LOG_NUMBER then e.(prevLogNumber := Some(n))
    else if tag == NEXT_FILE_NUMBER then e.(nextFileNumber := Some(n))
    else e.(lastSequence := Some(n))
  }

  lemma ScalarsApply(e0: Edit, e: Edit)
    requires StorableEdit(e)
    ensures AllFields(Scalars(e))
    ensures ApplyAll(Cleared(e0), Scalars(e))
         == Edit(e.comparator, e.logNumber, e.prevLogNumber, e.nextFileNumber, e.lastSequence, e0.compactPointers,
                 {}, [])
  {
    var name := if e.comparator.Some? then [Field(COMPARATOR, [TextPart(e.comparator.value)])] else [];
    var c := Cleared(e0);
    if e.comparator.Some? {
      TextIsValid(COMPARATOR, e.comparator.value);
      assert ApplyAll(c, name) == ApplyAll(ApplyField(c, name[0]), []);
    }
    ApplyOptional(c, name, LOG_NUMBER, e.logNumber);
    var log := name + (if e.logNumber.Some? then [Field(LOG_NUMBER, [NumberPart(e.logNumber.value)])] else []);
    ApplyOptional(c, log, PREV_LOG_NUMBER, e.prevLogNumber);
    var prev := log
        + (if e.prevLogNumber.Some? then [Field(PREV_LOG_NUMBER, [NumberPart(e.prevLogNumber.value)])] else []);
    ApplyOptional(c, prev, NEXT_FILE_NUMBER, e.nextFileNumber);
    var next := prev
        + (if e.nextFileNumber.Some? then [Field(NEXT_FILE_NUMBER, [NumberPart(e.nextFileNumber.value)])] else []);
    ApplyOptional(c, next, LAST_SEQUENCE, e.lastSequence);
  }

  /** Decoding the encoding of an edit gives the edit, behind the compaction pointers that were there. */
  lemma EditDecodes(e0: Edit, e: Edit, deleted: seq<(nat, nat)>)
    requires StorableEdit(e) && e.deletedFiles == set d | d in deleted
    ensures Decode(e0, EncodeFields(EncodeField, EditFields(e, deleted)))
         == Ok(e.(compactPointers := e0.compactPointers + e.compactPointers))
  {
    var fields := EditFields(e, deleted);
    var s := EncodeFields(EncodeField, fields);
    FieldsApply(e0, e, deleted);
    ReaderIsForward(s);
    ReaderReadsFields(s);
    assert Stands(s, 0, s);
    FieldsDecode(FieldReader(s), EncodeField, Cleared(e0), fields, s, 0);
  }

  lemma FieldsApply(e0: Edit, e: Edit, deleted: seq<(nat, nat)>)
    requires StorableEdit(e) && e.deletedFiles == set d | d in deleted
    ensures AllFields(EditFields(e, deleted))
    ensures ApplyAll(Cleared(e0), EditFields(e, deleted))
         == e.(compactPointers := e0.compactPointers + e.compactPointers)
  {
    var c := Cleared(e0);
    var one := Scalars(e);
    var two := one + Pointers(e.compactPointers);
    var three := two + Deletions(deleted);
    ScalarsApply(e0, e);
    PointersApply(ApplyAll(c, one), e.compactPointers);
    ApplyConcat(c, one, Pointers(e.compactPointers));
    DeletionsApply(ApplyAll(c, two), deleted);
    ApplyConcat(c, two, Deletions(deleted));
    AdditionsApply(ApplyAll(c, three), e.newFiles);
    ApplyConcat(c, three, Additions(e.newFiles));
  }

  ghost predicate Lists(order: seq<(nat, nat)>, files: set<(nat, nat)>) {
    files == set d | d in order
  }

  /** The fields of the edit one after the other; the deleted files may come in any order. */
  ghost predicate IsEncoding(e: Edit, bytes: seq<byte>) {
    exists deleted :: Lists(deleted, e.deletedFiles) && bytes == EncodeFields(EncodeField, EditFields(e, deleted))
  }

  /** Decoding undoes encoding exactly when it starts from an edit without compaction pointers: they
      are the one thing that decoding does not clear. */
  lemma RoundTripExactlyWhen(e0: Edit, e: Edit, bytes: seq<byte>)
    requires StorableEdit(e) && IsEncoding(e, bytes)
    ensures Decode(e0, bytes) == Ok(e) <==> e0.compactPointers == []
  {
    var deleted :| Lists(deleted, e.deletedFiles) && bytes == EncodeFields(EncodeField, EditFields(e, deleted));
    EditDecodes(e0, e, deleted);
    assert |e0.compactPointers + e.compactPointers| == |e.compactPointers| ==> e0.compactPointers == [];
  }

  // ------------------------------------------------------------ as loops do it

  lemma {:induction false} EncodeConcat(put: Field -> seq<byte>, a: seq<Field>, b: seq<Field>)
    ensures EncodeFields(put, a + b) == EncodeFields(put, a) + EncodeFields(put, b)
    decreases |a|
  {
    if a == [] {
      assert a + b == b;
    } else {
      EncodeConcat(put, a[1..], b);
      assert (a + b)[1..] == a[1..] + b;
    }
  }

  method PutField(dst: seq<byte>, ghost fields: seq<Field>, f: Field) returns (r: seq<byte>)
    requires dst == EncodeFields(EncodeField, fields)
    ensures r == EncodeFields(EncodeField, fields + [f])
  {
    EncodeConcat(EncodeField, fields, [f]);
    assert EncodeFields(EncodeField, [f]) == EncodeField(f) + EncodeFields(EncodeField, []);
    r := dst + EncodeField(f);
  }

  method PutNumber(dst: seq<byte>, ghost fields: seq<Field>, tag: nat, n: Option<nat>) returns (r: seq<byte>)
    requires dst == EncodeFields(EncodeField, fields)
    ensures r == EncodeFields(EncodeField, fields + (if n.Some? then [Field(tag, [NumberPart(n.value)])] else []))
  {
    r := dst;
    if n.Some? {
      r := PutField(dst, fields, Field(tag, [NumberPart(n.value)]));
    } else {
      assert fields + [] == fields;
    }
  }

  method EncodeScalars(e: Edit) returns (dst: seq<byte>)
    ensures dst == EncodeFields(EncodeField, Scalars(e))
  {
    dst := [];
    ghost var fields: seq<Field> := [];
    if e.comparator.Some? {
      dst := PutField(dst, [], Field(COMPARATOR, [TextPart(e.comparator.value)]));
      fields := [Field(COMPARATOR, [TextPart(e.comparator.value)])];
      assert [] + fields == fields;
    }
    dst := PutNumber(dst, fields, LOG_NUMBER, e.logNumber);
    fields := fields + (if e.logNumber.Some? then [Field(LOG_NUMBER, [NumberPart(e.logNumber.value)])] else []);
    dst := PutNumber(dst, fields, PREV_LOG_NUMBER, e.prevLogNumber);
    fields := fields
      + (if e.prevLogNumber.Some? then [Field(PREV_LOG_NUMBER, [NumberPart(e.prevLogNumber.value)])] else []);
    dst := PutNumber(dst, fields, NEXT_FILE_NUMBER, e.nextFileNumber);
    fields := fields
      + (if e.nextFileNumber.Some? then [Field(NEXT_FILE_NUMBER, [NumberPart(e.nextFileNumber.value)])] else []);
    dst := PutNumber(dst, fields, LAST_SEQUENCE, e.lastSequence);
  }

  method EncodePointers(start: seq<byte>, ghost fields: seq<Field>, cs: seq<(nat, seq<byte>)>) returns (dst: seq<byte>)
    requires start == EncodeFields(EncodeField, fields)
    ensures dst == EncodeFields(EncodeField, fields + Pointers(cs))
  {
    dst := start;
    assert fields + Pointers(cs[..0]) == fields;
    for i := 0 to |cs|
      invariant dst == EncodeFields(EncodeField, fields + Pointers(cs[..i]))
    {
      dst := PutField(dst, fields + Pointers(cs[..i]), PointerField(cs[i]));
      assert Pointers(cs[..i + 1]) == Pointers(cs[..i]) + [PointerField(cs[i])];
      assert fields + Pointers(cs[..i]) + [PointerField(cs[i])] == fields + (Pointers(cs[..i]) + [PointerField(cs[i])]);
    }
    assert cs[..|cs|] == cs;
  }

  method EncodeAdditions(start: seq<byte>, ghost fields: seq<Field>, ns: seq<(nat, NewFile)>) returns (dst: seq<byte>)
    requires start == EncodeFields(EncodeField, fields)
    ensures dst == EncodeFields(EncodeField, fields + Additions(ns))
  {
    dst := start;
    assert fields + Additions(ns[..0]) == fields;
    for i := 0 to |ns|
      invariant dst == EncodeFields(EncodeField, fields + Additions(ns[..i]))
    {
      dst := PutField(dst, fields + Additions(ns[..i]), NewFileField(ns[i]));
      assert Additions(ns[..i + 1]) == Additions(ns[..i]) + [NewFileField(ns[i])];
      assert fields + Additions(ns[..i]) + [NewFileField(ns[i])]
          == fields + (Additions(ns[..i]) + [NewFileField(ns[i])]);
    }
    assert ns[..|ns|] == ns;
  }

  method EncodeDeletions(start: seq<byte>, ghost fields: seq<Field>, files: set<(nat, nat)>)
    returns (dst: seq<byte>, ghost deleted: seq<(nat, nat)>)
    requires start == EncodeFields(EncodeField, fields)
    ensures dst == EncodeFields(EncodeField, fields + Deletions(deleted))
    ensures files == set d | d in deleted
  {
    var rest := files;
    dst, deleted := start, [];
    assert fields + Deletions([]) == fields;
    while rest != {}
      invariant rest <= files && (forall d :: d in deleted <==> d in files - rest)
      invariant dst == EncodeFields(EncodeField, fields + Deletions(deleted))
      decreases rest
    {
      var d :| d in rest;
      dst := PutField(dst, fields + Deletions(deleted), DeletedField(d));
      assert Deletions(deleted + [d]) == Deletions(deleted) + [DeletedField(d)];
      assert fields + Deletions(deleted) + [DeletedField(d)] == fields + (Deletions(deleted) + [DeletedField(d)]);
      rest := rest - {d};
      deleted := deleted + [d];
    }
  }

  /** Writes an edit; the deleted files are written in the order of the set, which does not matter. */
  method EncodeTo(e: Edit) returns (dst: seq<byte>)
    ensures IsEncoding(e, dst)
  {
    ghost var deleted;
    dst := EncodeScalars(e);
    dst := EncodePointers(dst, Scalars(e), e.compactPointers);
    dst, deleted := EncodeDeletions(dst, Scalars(e) + Pointers(e.compactPointers), e.deletedFiles);
    dst := EncodeAdditions(dst, Scalars(e) + Pointers(e.compactPointers) + Deletions(deleted), e.newFiles);
    assert Lists(deleted, e.deletedFiles);
  }

  /** Reads fields until a tag is missing, unknown, or without its parts. */
  method DecodeFrom(e: Edit, s: seq<byte>) returns (r: Result)
    ensures r == Decode(e, s)
  {
    ReaderIsForward(s);
    var edit, p := Cleared(e), 0;
    ghost var parse := FieldReader(s);
    while true
      invariant p <= |s| && DecodeFields(parse, edit, |s|, p) == Decode(e, s)
      decreases |s| - p
    {
      assert parse(p) == ParseField(s, p);
      var parsed := ParseField(s, p);
      match parsed
      case NoTag =>
        return if p < |s| then Corruption(None) else Ok(edit);
      case Bad(tag) =>
        return Corruption(Some(tag));
      case Parsed(f, next) =>
        edit := ApplyField(edit, f);
        p := next;
    }
  }
}
