// The cyclic field iterator that both halves of the codec walk a descriptor with
// (pb_common.c).  The pointers to the current field's data and count are its position.
module ProtoIter {
  import opened Protos

  /** How many of the first `n` fields are required. */
  function RequiredBefore(fields: seq<Field>, n: nat): (r: nat)
    requires n <= |fields|
    ensures r <= n
  {
    if n == 0 then 0 else RequiredBefore(fields, n - 1) + if fields[n - 1].rule.Required? then 1 else 0
  }

  lemma {:induction false} RequiredCounts(fields: seq<Field>, n: nat)
    requires n <= |fields|
    ensures RequiredBefore(fields, n) == |set i | 0 <= i < n && fields[i].rule.Required?|
  {
    if n > 0 {
      RequiredCounts(fields, n - 1);
      var before := set i | 0 <= i < n - 1 && fields[i].rule.Required?;
      var now := set i | 0 <= i < n && fields[i].rule.Required?;
      assert now == if fields[n - 1].rule.Required? then before + {n - 1} else before;
    }
  }

  lemma {:induction false} RequiredGrows(fields: seq<Field>, i: nat, n: nat)
    requires i <= n <= |fields|
    ensures RequiredBefore(fields, i) <= RequiredBefore(fields, n)
    decreases n
  {
    if i < n {
      RequiredGrows(fields, i, n - 1);
    }
  }

  /** Different required fields have different numbers. */
  lemma {:induction false} RequiredNumbersDiffer(fields: seq<Field>, i: nat, n: nat)
    requires i < n <= |fields| && fields[i].rule.Required?
    ensures RequiredBefore(fields, i) < RequiredBefore(fields, n)
  {
    RequiredGrows(fields, i + 1, n);
  }

  /** Every number below the total belongs to a required field. */
  lemma {:induction false} RequiredNumbered(fields: seq<Field>, n: nat, r: nat) returns (i: nat)
    requires n <= |fields| && r < RequiredBefore(fields, n)
    ensures i < n && fields[i].rule.Required? && RequiredBefore(fields, i) == r
  {
    if fields[n - 1].rule.Required? && RequiredBefore(fields, n - 1) == r {
      i := n - 1;
    } else {
      i := RequiredNumbered(fields, n - 1, r);
    }
  }

  class FieldIter {
    const fields: seq<Field>
    var pos: nat
    var requiredIndex: nat

    ghost predicate Valid()
      reads this
    {
      && (if |fields| == 0 then pos == 0 else pos < |fields|)
      && requiredIndex == RequiredBefore(fields, pos)
    }

    constructor (fields: seq<Field>)
      ensures Valid() && this.fields == fields && pos == 0
    {
      this.fields := fields;
      pos := 0;
      requiredIndex := 0;
    }

    /** Whether there is a field at all; the first one. */
    method Begin() returns (ok: bool)
      modifies this
      ensures Valid() && pos == 0 && (ok <==> |fields| > 0)
    {
      pos := 0;
      requiredIndex := 0;
      ok := |fields| != 0;
    }

    /** The next field, or back to the first after the last. */
    method Next() returns (ok: bool)
      requires Valid()
      modifies this
      ensures Valid() && (ok <==> old(pos) + 1 < |fields|) && pos == if ok then old(pos) + 1 else 0
    {
      if |fields| == 0 {
        return false;
      }
      if pos + 1 == |fields| {
        var more := Begin();
        ok := false;
      } else {
        if fields[pos].rule.Required? {
          requiredIndex := requiredIndex + 1;
        }
        pos := pos + 1;
        ok := true;
      }
    }

    /** Goes round from where it stands to the field with the given tag, and comes back if there is none. */
    method Find(tag: nat) returns (found: bool)
      requires Valid()
      modifies this
      ensures Valid() && (found <==> exists i :: 0 <= i < |fields| && fields[i].tag == tag)
      ensures if found then pos < |fields| && fields[pos].tag == tag else pos == old(pos)
    {
      if |fields| == 0 {
        return false;
      }
      var start := pos;
      ghost var wrapped := false;
      if fields[pos].tag == tag {
        return true;
      }
      var more := Next();
      wrapped := !more;
      while pos != start
        invariant Valid() && (wrapped ==> pos <= start) && (!wrapped ==> pos > start)
        invariant forall i :: start <= i < |fields| && (wrapped || i < pos) ==> fields[i].tag != tag
        invariant wrapped ==> forall i :: 0 <= i < pos ==> fields[i].tag != tag
        decreases !wrapped, |fields| - pos
      {
        if fields[pos].tag == tag {
          return true;
        }
        more := Next();
        if !more {
          wrapped := true;
        }
      }
      found := false;
    }
  }
}
