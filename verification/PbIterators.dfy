/** pb_field_iter_t: a position that goes round the fields of a descriptor. */
module PbIterators {
  import opened Coding
  import opened PbFormat
  import opened PbDecoding

  class FieldIter {
    const start: Fields
    var pos: nat
    var requiredFieldIndex: nat

    ghost predicate Valid()
      reads this
    {
      (pos < |start| || (pos == 0 && start == [])) && requiredFieldIndex == RequiredBefore(start, pos)
    }

    /** pb_field_iter_begin. */
    constructor (fields: Fields)
      ensures Valid() && start == fields && pos == 0
    {
      start, pos, requiredFieldIndex := fields, 0, 0;
    }

    /** pb_field_iter_next: false when it has come round. */
    method Next() returns (more: bool)
      requires Valid()
      modifies this
      ensures Valid() && (more <==> old(pos) + 1 < |start|) && pos == if more then old(pos) + 1 else 0
    {
      if |start| == 0 {
        // The first field is already the terminator.
        return false;
      }
      var prevField := start[pos];
      pos := pos + 1;
      if pos == |start| {
        pos, requiredFieldIndex := 0, 0;
        return false;
      }
      if prevField.htype.Required? {
        requiredFieldIndex := requiredFieldIndex + 1;
      }
      return true;
    }

    /** pb_field_iter_find, from wherever it is. */
    method Find(tag: nat) returns (found: bool)
      requires Valid() && UniqueTags(start)
      modifies this
      ensures Valid() && (found <==> FindTag(start, tag).Just?) && (found ==> FindTag(start, tag) == Just(pos))
    {
      hide RequiredBefore, FindTag;
      if |start| == 0 {
        NotFound(start, tag);
        return false;
      }
      var first := pos;
      ghost var steps := 0;
      while true
        invariant Valid() && steps < |start|
        invariant pos == (if first + steps < |start| then first + steps else first + steps - |start|)
        invariant forall i :: 0 <= i < |start| && Passed(first, steps, i) ==> start[i].tag != tag
        decreases |start| - steps
      {
        if start[pos].tag == tag {
          FoundHere(start, pos, tag);
          return true;
        }
        ghost var here := pos;
        var more := Next();
        steps := steps + 1;
        assert forall i :: 0 <= i < |start| && Passed(first, steps, i) ==> i == here || Passed(first, steps - 1, i);
        if pos == first {
          assert forall i :: 0 <= i < |start| ==> Passed(first, steps, i);
          NotFound(start, tag);
          return false;
        }
      }
    }

    /** Index i is among the first `steps` from `first` on. */
    ghost predicate Passed(first: nat, steps: int, i: int) {
      first <= i < first + steps || first <= i + |start| < first + steps
    }
  }

  lemma {:induction false} FoundHere(fields: Fields, i: nat, tag: nat)
    requires UniqueTags(fields) && i < |fields| && fields[i].tag == tag
    ensures FindTag(fields, tag) == Just(i)
  {
    if fields[|fields| - 1].tag != tag { FoundHere(fields[..|fields| - 1], i, tag); }
  }

  lemma NotFound(fields: Fields, tag: nat)
    requires forall i :: 0 <= i < |fields| ==> fields[i].tag != tag
    ensures FindTag(fields, tag) == Nothing
  {
  }
}
