/** A Go slice of runes with its backing array: in-place removal, insertion through a copied tail,
    and growth when the capacity is used up. */
module RuneSlices {
  import opened Text

  class RuneSlice {
    var data: array<char>
    var len: nat

    ghost predicate Valid()
      reads this
    {
      len <= data.Length
    }

    ghost function Contents(): (s: string)
      requires Valid()
      reads this, data
    {
      data[..len]
    }

    constructor (capacity: nat)
      ensures Valid() && fresh(data) && Contents() == ""
    {
      data := new char[capacity](_ => ' ');
      len := 0;
    }

    /** Room for `needed` runes, in the same array if it has it. */
    method Reserve(needed: nat)
      requires Valid()
      modifies this
      ensures Valid() && needed <= data.Length
      ensures data == old(data) || fresh(data)
      ensures len == old(len) && Contents() == old(Contents())
    {
      if needed <= data.Length {
        return;
      }
      var larger := new char[2 * needed](_ => ' ');
      for i := 0 to len
        invariant len <= data.Length && data == old(data) && len == old(len)
        invariant unchanged(data)
        invariant larger[..i] == data[..i]
      {
        larger[i] := data[i];
      }
      data := larger;
    }

    /** Adds a rune at the end, in a larger array if the old one is full. */
    method Append(c: char)
      requires Valid()
      modifies this, data
      ensures Valid() && (data == old(data) || fresh(data))
      ensures Contents() == old(Contents()) + [c]
    {
      Reserve(len + 1);
      data[len] := c;
      len := len + 1;
    }

    /** Removes one rune: the tail behind it moves one place down, in place. */
    method RemoveAt(at: nat)
      requires Valid() && at < len
      modifies this, data
      ensures Valid() && data == old(data)
      ensures Contents() == old(Contents())[..at] + old(Contents())[at + 1..]
    {
      ghost var was := Contents();
      for i := at to len - 1
        invariant data == old(data) && len == old(len) == |was|
        invariant forall k | 0 <= k < at :: data[k] == was[k]
        invariant forall k | at <= k < i :: data[k] == was[k + 1]
        invariant forall k | i <= k < len :: data[k] == was[k]
      {
        data[i] := data[i + 1];
      }
      len := len - 1;
      assert data[..len] == was[..at] + was[at + 1..];
    }

    /** Copies runes into the array from `at` on. */
    method CopyIn(at: nat, runes: string)
      requires at + |runes| <= data.Length
      modifies data
      ensures data[..at] == old(data[..at])
      ensures data[at..at + |runes|] == runes
      ensures data[..at + |runes|] == old(data[..at]) + runes
    {
      for i := 0 to |runes|
        invariant data[..at] == old(data[..at])
        invariant data[at..at + i] == runes[..i]
      {
        data[at + i] := runes[i];
        assert data[at..at + i + 1] == data[at..at + i] + [runes[i]];
      }
      assert data[..at + |runes|] == data[..at] + data[at..at + |runes|];
    }

    /** Puts a rune before the one at `at`: the tail is copied out behind the new rune, then back in. */
    method InsertAt(at: nat, c: char)
      requires Valid() && at <= len
      modifies this, data
      ensures Valid() && (data == old(data) || fresh(data))
      ensures Contents() == old(Contents())[..at] + [c] + old(Contents())[at..]
    {
      ghost var was := Contents();
      var tail := [c] + data[at..len];
      assert data[at..len] == was[at..];
      Reserve(len + 1);
      assert data[..at] == Contents()[..at] == was[..at];
      CopyIn(at, tail);
      len := len + 1;
      AppendAssociates(was[..at], [c], was[at..]);
    }

    /** Empties the slice and fills it with a copy of the runes. */
    method Assign(runes: string)
      requires Valid()
      modifies this, data
      ensures Valid() && (data == old(data) || fresh(data))
      ensures Contents() == runes
    {
      Reserve(|runes|);
      CopyIn(0, runes);
      len := |runes|;
    }
  }
}
