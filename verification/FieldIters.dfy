/**
 pb_field_iter_t: going round a table of fields, counting the required ones passed.
 */
module FieldIters {
  import opened Basics
  import opened Messages
  import opened MessageDecoding

  class FieldIter {
    const fields: seq<Field>
    var pos: nat
    var requiredIndex: nat

    ghost predicate Valid()
      reads this
    {
      && (if fields == [] then pos == 0 else pos < |fields|)
      && requiredIndex == RequiredBefore(fields, pos)
    }

    constructor (fields: seq<Field>)
      ensures Valid() && this.fields == fields && pos == 0
    {
      this.fields := fields;
      pos, requiredIndex := 0, 0;
    }

    /** To the next field, or back to the first after the last. */
    method Next() returns (more: bool)
      requires Valid()
      modifies this
      ensures Valid()
      ensures more <==> old(pos) + 1 < |fields|
      ensures pos == if more then old(pos) + 1 else 0
    {
      if fields == [] {
        return false;
      }
      var previous := pos;
      pos := pos + 1;
      if pos == |fields| {
        pos, requiredIndex := 0, 0;
        return false;
      }
      if fields[previous].rule.Required? {
        requiredIndex := requiredIndex + 1;
      }
      return true;
    }

    /** From where it stands, once around. */
    method Find(tag: nat) returns (found: bool)
      requires Valid() && DistinctTags(fields)
      modifies this
      ensures Valid()
      ensures found <==> IndexOf(fields, tag).Some?
      ensures pos == if found then IndexOf(fields, tag).value else old(pos)
    {
      if fields == [] {
        return false;
      }
      var start := pos;
      ghost var steps := 0;
      while true
        invariant Valid() && steps < |fields|
        invariant pos == if start + steps < |fields| then start + steps else start + steps - |fields|
        invariant forall j :: 0 <= j < |fields| && Passed(start, steps, |fields|, j) ==> fields[j].tag != tag
        decreases |fields| - steps
      {
        if fields[pos].tag == tag {
          FieldFound(fields, pos);
          return true;
        }
        var _ := Next();
        steps := steps + 1;
        if pos == start {
          return false;
        }
      }
    }
  }

  /** Index j comes before `steps` steps round from start. */
  ghost predicate Passed(start: nat, steps: nat, n: nat, j: nat) {
    if j >= start then j < start + steps else j + n < start + steps
  }
}
