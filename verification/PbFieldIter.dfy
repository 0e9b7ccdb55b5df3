/**
 The circular field iterator of nanopb (pb_common.c), proved to be at every step where a
 layout table computed from scratch says it should be.
 */
module PbFieldIter {
  import opened Octets
  import opened Fragments
  import opened PbMessage
  import opened PbDecode

  // ----- the layout table

  /** The octets a static field occupies in the struct. */
  function FieldBytes(f: Field): nat {
    if f.htype == Repeated then f.dataSize * f.arraySize else f.dataSize
  }

  /** The offset of the data of field i; the members of a union share one offset. */
  function DataAt(fields: seq<Field>, i: nat): (offset: nat)
    requires i < |fields|
  {
    if i == 0 then fields[0].dataOffset
    else if JoinsPrevious(fields[i - 1], fields[i]) then DataAt(fields, i - 1)
    else DataAt(fields, i - 1) + FieldBytes(fields[i - 1]) + fields[i].dataOffset
  }

  /** The first member of the union field i belongs to, or i itself. */
  function UnionHead(fields: seq<Field>, i: nat): (h: nat)
    requires i < |fields|
    ensures h <= i
  {
    if i > 0 && JoinsPrevious(fields[i - 1], fields[i]) then UnionHead(fields, i - 1) else i
  }

  /** The offset of the has-flag, count or which-tag of field i. */
  function SizeAt(fields: seq<Field>, i: nat): int
    requires i < |fields|
  {
    DataAt(fields, UnionHead(fields, i)) + fields[UnionHead(fields, i)].sizeOffset
  }

  lemma {:induction false} HeadShares(fields: seq<Field>, i: nat)
    requires i < |fields|
    ensures DataAt(fields, UnionHead(fields, i)) == DataAt(fields, i)
    ensures SlotOf(fields, UnionHead(fields, i)) == SlotOf(fields, i)
  {
    if i > 0 && JoinsPrevious(fields[i - 1], fields[i]) {
      HeadShares(fields, i - 1);
    }
  }

  /** Fields that share a slot share their data; a field that shares none overlaps no later one. */
  lemma {:induction false} SlotsAreRegions(fields: seq<Field>, i: nat, j: nat)
    requires i < j < |fields|
    ensures SlotOf(fields, i) == SlotOf(fields, j) ==> DataAt(fields, i) == DataAt(fields, j)
    ensures fields[i].htype != Oneof ==> DataAt(fields, i) + FieldBytes(fields[i]) <= DataAt(fields, j)
    ensures DataAt(fields, i) <= DataAt(fields, j)
    decreases j
  {
    SlotsAscend(fields, i, j - 1);
    if i < j - 1 {
      SlotsAscend(fields, j - 1, j);
      SlotsAreRegions(fields, i, j - 1);
    }
  }

  // ----- the iterator

  class FieldIter {
    const fields: seq<Field>
    var pos: nat
    var requiredFieldIndex: nat
    var slot: nat
    const destStruct: int
    var pData: int
    var pSize: int

    /** Every field sits where the layout table puts it; the terminator has tag 0. */
    ghost predicate Valid()
      reads this
    {
      && (forall f | f in fields :: f.tag != 0)
      && (if fields == [] then pos == 0 else pos < |fields|)
      && (fields != [] ==>
            && requiredFieldIndex == RequiredIndex(fields, pos)
            && slot == SlotOf(fields, pos)
            && pData == destStruct + DataAt(fields, pos)
            && pSize == destStruct + SizeAt(fields, pos))
    }

    constructor (fields: seq<Field>, destStruct: int)
      requires forall f | f in fields :: f.tag != 0
      ensures Valid() && this.fields == fields && this.destStruct == destStruct && pos == 0
    {
      this.fields, this.destStruct := fields, destStruct;
      pos, requiredFieldIndex, slot := 0, 0, 0;
      pData := destStruct + if fields == [] then 0 else fields[0].dataOffset;
      pSize := destStruct + if fields == [] then 0 else fields[0].dataOffset + fields[0].sizeOffset;
    }

    method Begin() returns (more: bool)
      requires forall f | f in fields :: f.tag != 0
      modifies this
      ensures Valid() && pos == 0
      ensures more <==> fields != []
    {
      pos, requiredFieldIndex, slot := 0, 0, 0;
      pData := destStruct + if fields == [] then 0 else fields[0].dataOffset;
      pSize := pData + if fields == [] then 0 else fields[0].sizeOffset;
      more := fields != [];
    }

    method Next() returns (more: bool)
      requires Valid()
      modifies this
      ensures Valid()
      ensures pos == if fields == [] || old(pos) + 1 == |fields| then 0 else old(pos) + 1
      ensures more <==> old(pos) + 1 < |fields|
    {
      if pos == |fields| {
        return false;
      }
      var prev := fields[pos];
      pos := pos + 1;
      if pos == |fields| {
        var _ := Begin();
        return false;
      }
      var prevSize := prev.dataSize;
      if prev.htype == Oneof && fields[pos].htype == Oneof && fields[pos].dataOffset == SIZE_MAX {
        return true;
      } else if prev.htype == Repeated {
        prevSize := prevSize * prev.arraySize;
      }
      if prev.htype == Required {
        requiredFieldIndex := requiredFieldIndex + 1;
      }
      slot := slot + 1;
      pData := pData + prevSize + fields[pos].dataOffset;
      pSize := pData + fields[pos].sizeOffset;
      return true;
    }

    /**
     One lap at most. For a tag other than 0 the answer is the one of a plain search, and
     when nothing is found the iterator is back where it was.
     */
    method FindTag(tag: nat) returns (found: bool)
      requires Valid()
      modifies this
      ensures Valid()
      ensures fields == [] ==> found == (tag == 0)
      ensures fields != [] ==>
        && found == Find(fields, old(pos), tag).Some?
        && pos == if found then Find(fields, old(pos), tag).value else old(pos)
    {
      if fields == [] {
        return tag == 0;
      }
      ghost var start := pos;
      var first := pos;
      var wrapped := false;
      while true
        invariant Valid()
        invariant if wrapped then pos <= start && FindUp(fields, start, |fields|, tag).None? &&
                                  FindUp(fields, 0, start, tag) == FindUp(fields, pos, start, tag)
                  else start <= pos && FindUp(fields, start, |fields|, tag) == FindUp(fields, pos, |fields|, tag)
        invariant wrapped ==> pos < start
        decreases if wrapped then start - pos else |fields| - pos + start + 1
      {
        if fields[pos].tag == tag {
          return true;
        }
        var more := Next();
        if !more {
          wrapped := true;
        }
        if pos == first {
          return false;
        }
      }
    }
  }
}
