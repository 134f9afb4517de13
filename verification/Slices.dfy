/**
 Growable lists as they are in memory: a backing array and a length. Two slices over one
 array see each other's writes.
 */
module Slices {

  datatype Slice<T> = Slice(data: array<T>, len: nat) {
    ghost predicate Fits() {
      len <= data.Length
    }

    ghost function Items(): seq<T>
      requires Fits()
      reads data
    {
      data[..len]
    }
  }

  /** The same items in an array of their own. */
  method CopyOf<T>(s: Slice<T>) returns (r: Slice<T>)
    requires s.Fits()
    ensures fresh(r.data) && r.Fits() && r.Items() == s.Items()
  {
    var data := new T[s.len](i requires 0 <= i < s.len && s.len <= s.data.Length reads s.data => s.data[i]);
    r := Slice(data, s.len);
  }

  /** Write into spare room of the array, or move to a larger one. */
  method Append<T>(s: Slice<T>, x: T) returns (r: Slice<T>)
    requires s.Fits()
    modifies s.data
    ensures r.Fits() && (r.data == s.data || fresh(r.data))
    ensures r.Items() == old(s.Items()) + [x]
  {
    if s.len < s.data.Length {
      s.data[s.len] := x;
      return Slice(s.data, s.len + 1);
    }
    var data := new T[2 * s.len + 1](_ => x);
    for i := 0 to s.len
      invariant data[..i] == s.data[..i]
      invariant data[s.len] == x && s.data[..] == old(s.data[..])
    {
      data[i] := s.data[i];
    }
    r := Slice(data, s.len + 1);
  }

  /** Move the items after `i` down by one place, in place. The last item stays where it was. */
  method ShiftDown<T>(s: Slice<T>, i: nat)
    requires s.Fits() && i < s.len
    modifies s.data
    ensures s.Items() == old(s.Items())[..i] + old(s.Items())[i + 1..] + [old(s.Items())[s.len - 1]]
  {
    ghost var before := s.Items();
    for k := i to s.len - 1
      invariant forall j | 0 <= j < i || k <= j < s.len :: s.data[j] == before[j]
      invariant forall j | i <= j < k :: s.data[j] == before[j + 1]
    {
      s.data[k] := s.data[k + 1];
    }
  }

  /** Drop item `i`, in place. */
  method Drop<T>(s: Slice<T>, i: nat) returns (r: Slice<T>)
    requires s.Fits() && i < s.len
    modifies s.data
    ensures r.data == s.data && r.Fits()
    ensures r.Items() == old(s.Items())[..i] + old(s.Items())[i + 1..]
  {
    ShiftDown(s, i);
    r := Slice(s.data, s.len - 1);
    assert r.Items() == s.Items()[..s.len - 1];
  }
}
