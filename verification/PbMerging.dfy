/** Merging two messages: what is decoded into a message that already holds something. */
module PbMerging {
  import opened Wrappers
  import opened PbDecoding
  import opened PbEncoding
  import opened PbFields
  import opened PbWire

  /** Some field before `n` is in the union. */
  ghost predicate UnionSet(fields: seq<Field>, m: Message, rule: Rule, n: nat)
    requires |m| == |fields| && n <= |fields|
  {
    exists k :: 0 <= k < n && fields[k].rule == rule && m[k] != []
  }

  /** Arrays are put one behind the other, messages inside are merged, and of everything else the later
      value counts, if there is one. */
  ghost function MergeValue(kind: Kind, x: Value, y: Value): Value
    decreases kind
  {
    if kind.Submessage? && x.Nested? && y.Nested? && |x.message| == |y.message| == |kind.fields|
    then Nested(Merge(kind.fields, x.message, y.message))
    else y
  }

  ghost function MergeSlot(field: Field, x: seq<Value>, y: seq<Value>): seq<Value>
    decreases field
  {
    if field.rule.Repeated? then x + y
    else if Present(field, y) then [MergeValue(field.kind, Current(field.kind, x), y[0])]
    else x
  }

  /** A union holds what was put in last. */
  ghost function Merge(fields: seq<Field>, x: Message, y: Message): (r: Message)
    requires |x| == |y| == |fields|
    ensures |r| == |fields|
    decreases fields
  {
    seq(|fields|, i requires 0 <= i < |fields| =>
      if !fields[i].rule.OneOf? then MergeSlot(fields[i], x[i], y[i])
      else if UnionSet(fields, y, fields[i].rule, |fields|) then y[i]
      else x[i])
  }

  ghost predicate TerminatedAll(kind: Kind, values: seq<Value>) {
    forall j :: 0 <= j < |values| ==> Terminated(kind, values[j])
  }

  /** Strings keep room for their NUL, and arrays do not outgrow their maximum. */
  ghost predicate CanMergeValue(kind: Kind, x: Value, y: Value)
    decreases kind
  {
    match kind
    case String(size) => y.Data? && |y.bytes| < size
    case Submessage(fields) =>
      x.Nested? && y.Nested? && |x.message| == |y.message| == |fields| && CanMerge(fields, x.message, y.message)
    case _ => true
  }

  ghost predicate CanMergeSlot(field: Field, x: seq<Value>, y: seq<Value>)
    decreases field
  {
    match field.rule
    case Repeated(max) => (y != [] ==> |x| + |y| <= max) && TerminatedAll(field.kind, y)
    case OneOf(_) => TerminatedAll(field.kind, y)
    case _ => Present(field, y) ==> CanMergeValue(field.kind, Current(field.kind, x), y[0])
  }

  ghost predicate CanMerge(fields: seq<Field>, x: Message, y: Message)
    requires |x| == |y| == |fields|
    decreases fields
  {
    forall i :: 0 <= i < |fields| ==> CanMergeSlot(fields[i], x[i], y[i])
  }

  // ------------------------------------------------------ merging into defaults

  lemma {:induction false} DefaultTerminated(kind: Kind)
    requires WellFormedKind(kind)
    ensures Terminated(kind, Default(kind))
    decreases kind
  {
    if kind.Submessage? {
      var fields := kind.fields;
      forall j | 0 <= j < |fields| ensures SlotTerminated(fields[j], DefaultSlot(fields[j])) {
        assert WellFormedField(fields[j]);
        DefaultTerminated(fields[j].kind);
      }
    }
  }

  lemma {:induction false} DefaultIsValue(kind: Kind)
    requires WellFormedKind(kind)
    ensures IsValue(kind, Default(kind))
    decreases kind
  {
    if kind.Submessage? {
      var fields := kind.fields;
      forall j | 0 <= j < |fields| ensures IsSlot(fields[j], DefaultSlot(fields[j])) {
        assert WellFormedField(fields[j]);
        DefaultIsValue(fields[j].kind);
      }
    }
  }

  lemma DefaultsAreMessage(fields: seq<Field>)
    requires WellFormed(fields)
    ensures IsMessage(fields, Defaults(fields))
  {
    DefaultIsValue(Submessage(fields));
  }

  /** What the memory of a field holds, or would hold. */
  lemma CurrentIsValue(field: Field, slot: seq<Value>)
    requires WellFormedField(field) && IsSlot(field, slot)
    ensures IsValue(field.kind, Current(field.kind, slot))
  {
    DefaultIsValue(field.kind);
  }

  /** A value merged into the default is that value. */
  lemma {:induction false} MergeIntoDefault(kind: Kind, v: Value)
    requires WellFormedKind(kind) && IsValue(kind, v) && KeepsLimits(kind, v)
    ensures MergeValue(kind, Default(kind), v) == v
    ensures CanMergeValue(kind, Default(kind), v) <==> Terminated(kind, v)
    decreases kind
  {
    if kind.Submessage? {
      MergeIntoDefaults(kind.fields, v.message);
    }
  }

  lemma {:induction false} MergeIntoDefaultSlot(field: Field, slot: seq<Value>)
    requires WellFormedField(field) && IsSlot(field, slot) && SlotKeepsLimits(field, slot)
    ensures !field.rule.OneOf? ==> MergeSlot(field, DefaultSlot(field), slot) == slot
    ensures CanMergeSlot(field, DefaultSlot(field), slot) <==> SlotTerminated(field, slot)
    decreases field
  {
    if field.rule.Repeated? || field.rule.OneOf? {
      assert [] + slot == slot;
    } else if slot != [] {
      assert slot == [slot[0]];
      if Present(field, slot) {
        MergeIntoDefault(field.kind, slot[0]);
      } else {
        DefaultValueIs(field.kind, slot[0]);
        DefaultTerminated(field.kind);
      }
    }
  }

  /** A message merged into the defaults is that message. */
  lemma {:induction false} MergeIntoDefaults(fields: seq<Field>, m: Message)
    requires WellFormed(fields) && IsMessage(fields, m) && MessageKeepsLimits(fields, m)
    ensures Merge(fields, Defaults(fields), m) == m
    ensures CanMerge(fields, Defaults(fields), m) <==> AllTerminated(fields, m)
    decreases fields
  {
    forall i | 0 <= i < |fields|
      ensures Merge(fields, Defaults(fields), m)[i] == m[i]
      ensures CanMergeSlot(fields[i], Defaults(fields)[i], m[i]) <==> SlotTerminated(fields[i], m[i])
    {
      assert WellFormedField(fields[i]) && IsSlot(fields[i], m[i]) && SlotKeepsLimits(fields[i], m[i]);
      MergeIntoDefaultSlot(fields[i], m[i]);
    }
  }

  // -------------------------------------------------------------- step by step

  /** The fields before `i` have been merged. */
  ghost function Partly(fields: seq<Field>, x: Message, y: Message, i: nat): (r: Message)
    requires |x| == |y| == |fields| && i <= |fields|
    ensures |r| == |fields|
  {
    seq(|fields|, j requires 0 <= j < |fields| =>
      if fields[j].rule.OneOf? then (if UnionSet(fields, y, fields[j].rule, i) then y[j] else x[j])
      else if j < i then MergeSlot(fields[j], x[j], y[j])
      else x[j])
  }

  lemma PartlyEnds(fields: seq<Field>, x: Message, y: Message)
    requires |x| == |y| == |fields|
    ensures Partly(fields, x, y, 0) == x && Partly(fields, x, y, |fields|) == Merge(fields, x, y)
  {
    forall j | 0 <= j < |fields| ensures Partly(fields, x, y, |fields|)[j] == Merge(fields, x, y)[j] {}
  }

  /** A field that is not written changes nothing. */
  lemma PartlyAbsent(fields: seq<Field>, x: Message, y: Message, i: nat)
    requires |x| == |y| == |fields| && i < |fields|
    requires y[i] == [] || (!fields[i].rule.Repeated? && !Present(fields[i], y[i]))
    ensures Partly(fields, x, y, i + 1) == Partly(fields, x, y, i)
  {
    forall j | 0 <= j < |fields| ensures Partly(fields, x, y, i + 1)[j] == Partly(fields, x, y, i)[j] {
      if fields[j].rule.OneOf? {
        UnionAbsent(fields, y, fields[j].rule, i);
      }
    }
  }

  lemma UnionAbsent(fields: seq<Field>, y: Message, rule: Rule, i: nat)
    requires |y| == |fields| && i < |fields|
    requires fields[i].rule != rule || y[i] == []
    ensures UnionSet(fields, y, rule, i + 1) <==> UnionSet(fields, y, rule, i)
  {
  }

  /** A field outside of unions changes only itself. */
  lemma PartlyOne(fields: seq<Field>, x: Message, y: Message, i: nat)
    requires |x| == |y| == |fields| && i < |fields| && !fields[i].rule.OneOf?
    ensures Partly(fields, x, y, i)[i] == x[i]
    ensures Partly(fields, x, y, i + 1) == Partly(fields, x, y, i)[i := MergeSlot(fields[i], x[i], y[i])]
  {
    var p, q := Partly(fields, x, y, i), Partly(fields, x, y, i + 1);
    forall j | 0 <= j < |fields| && j != i ensures q[j] == p[j] {
      if fields[j].rule.OneOf? {
        UnionAbsent(fields, y, fields[j].rule, i);
      }
    }
  }

  /** A field of a union puts out the others. */
  lemma PartlyChosen(fields: seq<Field>, x: Message, y: Message, i: nat)
    requires |x| == |y| == |fields| && i < |fields| && fields[i].rule.OneOf? && |y[i]| == 1 && OnePerUnion(fields, y)
    ensures Choose(fields, Partly(fields, x, y, i), i, y[i][0]) == Partly(fields, x, y, i + 1)
  {
    var p, q := Partly(fields, x, y, i), Partly(fields, x, y, i + 1);
    var c := Choose(fields, p, i, y[i][0]);
    assert y[i] == [y[i][0]];
    forall j | 0 <= j < |fields| ensures c[j] == q[j] {
      if fields[j].rule == fields[i].rule {
        assert UnionSet(fields, y, fields[j].rule, i + 1);
        assert j < i ==> y[j] == [];
        assert j > i ==> y[j] == [];
      } else if fields[j].rule.OneOf? {
        UnionAbsent(fields, y, fields[j].rule, i);
      }
    }
  }
}
