/**
  FakeNodeMetadata as the object its mutexes make it look like: one call at a time,
  fields updated in place, and the invocation lists kept in Go slices, whose backing
  arrays the maps returned by `Invocations` go on sharing.
 */
module FakeNodeObject {
  import opened Wrappers
  import opened FakeSpec

  type Args = seq<string>

  /** A Go slice from the start of its backing array; the capacity is the array's length. */
  datatype Slice = Slice(arr: array<Args>, len: nat)

  /** One list of a map that `Invocations` returned, with its contents at that time. */
  datatype Handed = Handed(key: Method, list: Slice, was: seq<Args>)

  class FakeNodeMetadata {
    var slots: Four<Slot>
    var invocations: Option<map<Method, Slice>>   // None is Go's nil map
    ghost var recorded: Four<seq<Args>>           // what the lists hold
    ghost var handed: seq<Handed>

    function Lists(): map<Method, Slice>
      reads this`invocations
    {
      if invocations.None? then map[] else invocations.value
    }

    ghost function Arrays(): set<array<Args>>
      reads this`invocations
    {
      set k | k in Lists() :: Lists()[k].arr
    }

    ghost function HandedArrays(): set<array<Args>>
      reads this`handed
    {
      set h | h in handed :: h.list.arr
    }

    /** The list of one method; a method has a list once it has been recorded. */
    ghost predicate ListOk(k: Method)
      reads this`invocations, this`recorded, Arrays()
    {
      if k in Lists() then
        var list := Lists()[k];
        0 < list.len <= list.arr.Length && list.arr[..list.len] == recorded.At(k)
      else
        recorded.At(k) == []
    }

    /** Every method's list is right, and lists have backing arrays of their own. */
    ghost predicate ListsOk()
      reads this`invocations, this`recorded, Arrays()
    {
      && (forall k :: ListOk(k))
      && (forall k, k' | k in Lists() && k' in Lists() && k != k' :: Lists()[k].arr != Lists()[k'].arr)
    }

    /** What was handed out is as it was, and is a prefix of what is recorded now. */
    ghost predicate HandedOk(h: Handed)
      reads this`invocations, this`recorded, h.list.arr
    {
      && h.list.len <= h.list.arr.Length && h.list.arr[..h.list.len] == h.was
      && h.was <= recorded.At(h.key)
      && forall k | k in Lists() && Lists()[k].arr == h.list.arr :: k == h.key && h.list.len <= Lists()[k].len
    }

    ghost predicate AllHandedOk()
      reads this`invocations, this`recorded, this`handed, HandedArrays()
    {
      forall h | h in handed :: HandedOk(h)
    }

    ghost predicate Valid()
      reads this, Arrays(), HandedArrays()
    {
      && ListsOk() && AllHandedOk()
      && (forall k :: |recorded.At(k)| == slots.At(k).calls)
    }

    constructor ()
      ensures Valid() && slots == NewSlots && handed == []
    {
      slots := NewSlots;
      invocations := None;
      recorded := Four([], [], [], []);
      handed := [];
      new;
      forall k ensures slots.At(k) == NewSlot && recorded.At(k) == [] {
        match k case AccountID => case Region => case WorkerID => case Zone =>
      }
    }

    /** Go's append: in place while the capacity lasts, else into a larger copy. */
    method Append(s: Slice, args: Args) returns (r: Slice)
      requires s.len <= s.arr.Length
      modifies s.arr
      ensures r.len == s.len + 1 <= r.arr.Length
      ensures r.arr[..r.len] == old(s.arr[..s.len]) + [args]
      ensures r.arr == s.arr || fresh(r.arr)
      ensures s.arr[..s.len] == old(s.arr[..s.len])
    {
      if s.len < s.arr.Length {
        s.arr[s.len] := args;
        r := Slice(s.arr, s.len + 1);
      } else {
        var larger := new Args[2 * s.len + 1];
        for i := 0 to s.len
          invariant forall j | 0 <= j < i :: larger[j] == s.arr[j]
          invariant s.arr[..] == old(s.arr[..])
        {
          larger[i] := s.arr[i];
        }
        larger[s.len] := args;
        r := Slice(larger, s.len + 1);
      }
    }

    /** Stores a list that is one entry longer. */
    method Store(key: Method, longer: Slice, ghost args: Args)
      requires ListsOk() && AllHandedOk()
      requires 0 < longer.len <= longer.arr.Length && longer.arr[..longer.len] == recorded.At(key) + [args]
      requires key in Lists() ==> Lists()[key].len < longer.len
      requires forall k | k in Lists() && k != key :: Lists()[k].arr != longer.arr
      requires forall h | h in handed && h.list.arr == longer.arr :: key in Lists() && Lists()[key].arr == h.list.arr
      modifies this`invocations, this`recorded
      ensures ListsOk() && AllHandedOk()
      ensures recorded == old(recorded).With(key, old(recorded).At(key) + [args])
      ensures Lists() == old(Lists())[key := longer]
    {
      invocations := Some(Lists()[key := longer]);
      recorded := recorded.With(key, recorded.At(key) + [args]);
      forall k ensures ListOk(k) {
        assert old(ListOk(k));
      }
      assert forall h | h in handed :: old(HandedOk(h)) && HandedOk(h);
    }

    /** Makes the map if it is nil; a method without a list starts with an empty one. */
    method ListFor(key: Method) returns (list: Slice)
      requires ListsOk() && AllHandedOk()
      modifies this`invocations
      ensures ListsOk() && AllHandedOk()
      ensures invocations == Some(old(Lists()))
      ensures list.len <= list.arr.Length && list.arr[..list.len] == recorded.At(key)
      ensures if key in Lists() then list == Lists()[key] else list.len == 0 && fresh(list.arr)
      ensures forall k | k in Lists() && k != key :: Lists()[k].arr != list.arr
    {
      if invocations.None? {
        invocations := Some(map[]);
      }
      if key in invocations.value {
        list := invocations.value[key];
      } else {
        var none := new Args[0];
        list := Slice(none, 0);
      }
      assert Lists() == old(Lists());
      forall k ensures ListOk(k) { assert old(ListOk(k)); }
      forall h | h in handed ensures HandedOk(h) { assert old(HandedOk(h)); }
      assert ListOk(key);
    }

    /** The list of the method with one more entry, not stored yet; nothing recorded has changed. */
    method Longer(key: Method, args: Args) returns (longer: Slice)
      requires ListsOk() && AllHandedOk()
      modifies this`invocations, Arrays()
      ensures ListsOk() && AllHandedOk() && Lists() == old(Lists())
      ensures 0 < longer.len <= longer.arr.Length && longer.arr[..longer.len] == recorded.At(key) + [args]
      ensures key in Lists() ==> Lists()[key].len < longer.len
      ensures forall k | k in Lists() && k != key :: Lists()[k].arr != longer.arr
      ensures forall h | h in handed && h.list.arr == longer.arr :: key in Lists() && Lists()[key].arr == h.list.arr
      ensures longer.arr in old(Arrays()) || fresh(longer.arr)
    {
      var list := ListFor(key);
      label L:
      longer := Append(list, args);
      forall k ensures ListOk(k) {
        assert old@L(ListOk(k));
      }
      forall h | h in handed ensures HandedOk(h) {
        assert old@L(HandedOk(h));
        if h.list.arr == list.arr {
          assert h.list.arr[..h.list.len] == list.arr[..list.len][..h.list.len];
        }
      }
    }

    method RecordInvocation(key: Method, args: Args)
      requires ListsOk() && AllHandedOk()
      modifies this`invocations, this`recorded, Arrays()
      ensures ListsOk() && AllHandedOk()
      ensures recorded == old(recorded).With(key, old(recorded).At(key) + [args])
      ensures forall k | k in Lists() :: Lists()[k].arr in old(Arrays()) || fresh(Lists()[k].arr)
    {
      var longer := Longer(key, args);
      Store(key, longer, args);
    }

    method SetSlot(m: Method, slot: Slot)
      requires ListsOk() && AllHandedOk()
      modifies this`slots
      ensures ListsOk() && AllHandedOk()
      ensures slots == old(slots).With(m, slot)
    {
      slots := slots.With(m, slot);
      forall k ensures ListOk(k) { assert old(ListOk(k)); }
      forall h | h in handed ensures HandedOk(h) { assert old(HandedOk(h)); }
    }

    method Get(m: Method) returns (answer: Answer)
      requires Valid()
      modifies this`slots, this`invocations, this`recorded, Arrays()
      ensures Valid()
      ensures (slots, answer) == Apply(old(slots), Op.Get(m))
      ensures slots.At(m).calls == old(slots.At(m).calls) + 1
      ensures recorded == old(recorded).With(m, old(recorded).At(m) + [[]])
      ensures forall k | k in Lists() :: Lists()[k].arr in old(Arrays()) || fresh(Lists()[k].arr)
    {
      var specific := LookedUp(slots.At(m));
      SetSlot(m, slots.At(m).(calls := slots.At(m).calls + 1));
      var stub := slots.At(m).stub;
      var fallback := slots.At(m).fallback;
      RecordInvocation(m, []);
      answer := Choose(stub, specific, fallback);
    }

    method CallCount(m: Method) returns (answer: Answer)
      requires Valid()
      ensures (slots, answer) == Apply(slots, Op.CallCount(m))
      ensures answer == Count(slots.At(m).calls)
    {
      answer := Count(slots.At(m).calls);
      SameFour(slots.With(m, slots.At(m)), slots);
    }

    method Calls(m: Method, stub: Option<nat>)
      requires Valid()
      modifies this`slots
      ensures Valid() && slots == Apply(old(slots), Op.Calls(m, stub)).0
    {
      SetSlot(m, slots.At(m).(stub := stub));
    }

    method Returns(m: Method, result1: string)
      requires Valid()
      modifies this`slots
      ensures Valid() && slots == Apply(old(slots), Op.Returns(m, result1)).0
    {
      SetSlot(m, slots.At(m).(stub := None));
      SetSlot(m, slots.At(m).(fallback := result1));
      SameFour(slots, Apply(old(slots), Op.Returns(m, result1)).0);
    }

    method ReturnsOnCall(m: Method, i: int, result1: string)
      requires Valid()
      modifies this`slots
      ensures Valid() && slots == Apply(old(slots), Op.ReturnsOnCall(m, i, result1)).0
    {
      SetSlot(m, slots.At(m).(stub := None));
      SetSlot(m, slots.At(m).(onCall := slots.At(m).onCall[i := result1]));
      SameFour(slots, Apply(old(slots), Op.ReturnsOnCall(m, i, result1)).0);
    }

    lemma ListLengths()
      requires Valid()
      ensures forall k :: k in Lists() <==> slots.At(k).calls > 0
      ensures forall k | k in Lists() :: Lists()[k].len == slots.At(k).calls
    {
      forall k
        ensures k in Lists() <==> slots.At(k).calls > 0
        ensures k in Lists() ==> Lists()[k].len == slots.At(k).calls
      {
        assert ListOk(k);
      }
    }

    /** Remembers that the list of `key` has been given away. */
    ghost method HandOut(key: Method)
      requires ListsOk() && AllHandedOk() && key in Lists()
      modifies this`handed
      ensures ListsOk() && AllHandedOk()
      ensures handed == old(handed) + [Handed(key, Lists()[key], recorded.At(key))]
    {
      var h := Handed(key, Lists()[key], recorded.At(key));
      assert ListOk(key) && HandedOk(h);
      handed := handed + [h];
      forall k ensures ListOk(k) { assert old(ListOk(k)); }
    }

    /**
      The returned map shares the backing arrays.  `handed` remembers it, so `Valid()`
      after any later calls says that its lists still read as they do now, and that they
      are prefixes of every later result.
     */
    method Invocations() returns (copied: map<Method, Slice>)
      requires Valid()
      modifies this`handed
      ensures Valid()
      ensures forall k :: k in copied <==> slots.At(k).calls > 0
      ensures forall k | k in copied :: copied[k].len == slots.At(k).calls
      ensures forall k | k in copied :: Handed(k, copied[k], recorded.At(k)) in handed
      ensures forall h | h in old(handed) :: h in handed
    {
      ListLengths();
      copied := map[];
      var keys := Lists().Keys;
      while keys != {}
        invariant keys <= Lists().Keys
        invariant forall k :: k in copied <==> k in Lists() && k !in keys
        invariant forall k | k in copied :: copied[k] == Lists()[k]
        invariant ListsOk() && AllHandedOk()
        invariant forall h | h in old(handed) :: h in handed
        invariant forall k | k in copied :: Handed(k, copied[k], recorded.At(k)) in handed
        decreases keys
      {
        var key :| key in keys;
        copied := copied[key := Lists()[key]];
        HandOut(key);
        keys := keys - {key};
      }
    }
  }
}
