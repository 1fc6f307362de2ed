/** `TypeDataRegistrationHelper` (SharpGen.Runtime/TypeDataRegistrationHelper.cs):
    vtables are collected with `Add` and copied, in order, into one native
    buffer by `RegisterImpl`. The buffer is a sequence here and the pointers
    are plain numbers; the `uint` size counter wraps modulo 2^32. */
module TypeData {
  import opened Wrappers

  /** An `IntPtr` slot of a vtable. */
  type Pointer = int

  const UInt32Modulus: int := 0x1_0000_0000

  /** The struct's two fields: the pending vtables (`null` until first use)
      and the running size. */
  datatype Helper = Helper(pointers: Option<seq<seq<Pointer>>>, size: nat)

  /** `default(TypeDataRegistrationHelper)`. */
  const Default := Helper(None, 0)

  /** The vtables added and not yet registered. */
  function Pending(h: Helper): seq<seq<Pointer>> {
    h.pointers.GetOr([])
  }

  /** The number of slots in `vs`. */
  function TotalLength(vs: seq<seq<Pointer>>): nat {
    if |vs| == 0 then 0 else TotalLength(vs[..|vs| - 1]) + |vs[|vs| - 1]|
  }

  /** The vtables one after another. */
  function Flatten(vs: seq<seq<Pointer>>): (r: seq<Pointer>)
    ensures |r| == TotalLength(vs)
  {
    if |vs| == 0 then [] else Flatten(vs[..|vs| - 1]) + vs[|vs| - 1]
  }

  /** The size counter agrees with the pending vtables. */
  ghost predicate Valid(h: Helper) {
    h.size == TotalLength(Pending(h)) % UInt32Modulus
  }

  /** `InitializeIfNeeded`: only a helper never used gets an empty list. */
  function InitializeIfNeeded(h: Helper): (r: Helper)
    ensures r.pointers.Some? && Pending(r) == Pending(h)
    ensures h.pointers.Some? ==> r == h
    ensures Valid(h) ==> Valid(r)
  {
    if h.pointers.Some? then h else Helper(Some([]), 0)
  }

  /** `Add(IntPtr[] vtbl)`. */
  function Add(h: Helper, vtbl: seq<Pointer>): (r: Helper)
    ensures Pending(r) == Pending(h) + [vtbl]
    ensures Valid(h) ==> Valid(r)
  {
    var init := InitializeIfNeeded(h);
    var pending := init.pointers.value + [vtbl];
    assert pending[..|pending| - 1] == init.pointers.value;
    Helper(Some(pending), (init.size + |vtbl|) % UInt32Modulus)
  }

  /** `Add` once per vtable, in order. */
  function AddAll(h: Helper, vs: seq<seq<Pointer>>): Helper
    decreases |vs|
  {
    if |vs| == 0 then h else AddAll(Add(h, vs[0]), vs[1..])
  }

  /** After any sequence of adds the pending list is the old one followed by
      the new vtables, and the size counts their slots. */
  lemma {:induction false} AddAllPending(h: Helper, vs: seq<seq<Pointer>>)
    ensures Pending(AddAll(h, vs)) == Pending(h) + vs
    ensures Valid(h) ==> Valid(AddAll(h, vs))
    decreases |vs|
  {
    if |vs| > 0 {
      AddAllPending(Add(h, vs[0]), vs[1..]);
      assert Pending(h) + [vs[0]] + vs[1..] == Pending(h) + vs;
    }
  }

  /** Starting from an unused helper, the size is the slot count modulo 2^32. */
  lemma AddsFromDefault(vs: seq<seq<Pointer>>)
    ensures Pending(AddAll(Default, vs)) == vs
    ensures AddAll(Default, vs).size == TotalLength(vs) % UInt32Modulus
  {
    AddAllPending(Default, vs);
  }

  /** `RegisterImpl`: copies every pending vtable, in order, to the buffer,
      then empties the list. The native buffer holds `size` slots; when
      fewer than 2^32 slots are pending that is exactly what is copied. */
  method RegisterImpl(h: Helper) returns (r: Helper, buffer: seq<Pointer>)
    ensures buffer == Flatten(Pending(h))
    ensures |buffer| == TotalLength(Pending(h))
    ensures Valid(h) && TotalLength(Pending(h)) < UInt32Modulus ==> |buffer| == h.size
    ensures Pending(h) == [] ==> buffer == []
    ensures r == Helper(Some([]), 0) && Valid(r)
  {
    var init := InitializeIfNeeded(h);
    var pointers := init.pointers.value;
    buffer := [];
    var offset := 0;
    for i := 0 to |pointers|
      invariant buffer == Flatten(pointers[..i])
      invariant offset == |buffer|
    {
      var item := pointers[i];
      assert pointers[..i + 1][..i] == pointers[..i];
      buffer := buffer + item;
      offset := offset + |item|;
    }
    assert pointers[..|pointers|] == pointers;
    r := Helper(Some([]), 0);
  }

  /** Adding vtables to an unused helper and registering gives their
      concatenation and leaves the helper empty. */
  method AddThenRegister(vs: seq<seq<Pointer>>) returns (r: Helper, buffer: seq<Pointer>)
    ensures buffer == Flatten(vs) && |buffer| == TotalLength(vs)
    ensures Pending(r) == [] && r.size == 0
  {
    var h := AddAll(Default, vs);
    AddsFromDefault(vs);
    r, buffer := RegisterImpl(h);
  }
}
