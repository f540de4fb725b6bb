/** The sliding window's array of buckets, updated in place by sequential calls. */
module LeapArray {
  import opened Options
  import opened Ring

  class LeapArray<B(0)> {
    const shape: Shape
    /** What NewEmptyBucket makes and ResetWindowTo leaves. */
    const empty: B
    const slots: array<Option<Wrap<B>>>

    ghost predicate Valid()
      reads this, slots
    {
      IsShape(shape) && slots.Length == shape.samples
    }

    ghost function Contents(): Slots<B>
      reads this, slots
    {
      slots[..]
    }

    constructor (sampleCount: nat, intervalMs: nat, empty: B)
      requires IsShape(Shape(sampleCount, intervalMs))
      ensures Valid() && fresh(slots)
      ensures shape == Shape(sampleCount, intervalMs) && this.empty == empty && Contents() == Empty(shape)
    {
      shape := Shape(sampleCount, intervalMs);
      this.empty := empty;
      slots := new Option<Wrap<B>>[sampleCount](_ => None);
      new;
      assert slots[..] == Empty(shape);
    }

    /** The window of time t; for a time behind its slot, one that is in no slot. */
    method CurrentWindow(t: int) returns (w: Option<Wrap<B>>)
      requires Valid()
      modifies slots
      ensures Valid()
      ensures t < 0 ==> w == None && Contents() == old(Contents())
      ensures t >= 0 ==> Contents() == Current(shape, old(Contents()), t, empty)
      ensures t >= 0 ==> var s := Contents()[IndexOf(shape, t)].value;
        w == Some(if s.start == StartOf(shape, t) then s else Wrap(StartOf(shape, t), empty))
    {
      if t < 0 {
        return None;
      }
      var idx := IndexOf(shape, t);
      var bucketStart := StartOf(shape, t);
      if slots[idx].None? {
        w := Some(Wrap(bucketStart, empty));
        slots[idx] := w;
      } else if bucketStart == slots[idx].value.start {
        w := slots[idx];
      } else if bucketStart > slots[idx].value.start {
        slots[idx] := Some(Wrap(bucketStart, empty));
        w := slots[idx];
      } else {
        w := Some(Wrap(bucketStart, empty));
      }
    }

    /** CurrentWindow(t), then an update of the bucket in it. */
    method Update(t: nat, f: B -> B)
      requires Valid()
      modifies slots
      ensures Valid() && Contents() == Modify(shape, old(Contents()), t, empty, f)
      ensures var s := old(Contents())[IndexOf(shape, t)];
        s.Some? && s.value.start > t ==> Contents() == old(Contents())
    {
      var w := CurrentWindow(t);
      var idx := IndexOf(shape, t);
      if slots[idx].value.start == w.value.start {
        slots[idx] := Some(slots[idx].value.(value := f(slots[idx].value.value)));
      }
    }

    method Buckets(t: int) returns (result: seq<Wrap<B>>)
      requires Valid()
      ensures result == if t < 0 then [] else Live(shape, Contents(), t)
    {
      result := [];
      if t < 0 {
        return;
      }
      var i := 0;
      assert slots[0..] == slots[..];
      while i < shape.samples
        invariant 0 <= i <= shape.samples
        invariant result + Live(shape, slots[i..], t) == Live(shape, slots[..], t)
      {
        assert slots[i..][0] == slots[i] && slots[i..][1..] == slots[i + 1..];
        if slots[i].Some? && t - slots[i].value.start <= shape.interval {
          LiveStep(result, slots[i].value, Live(shape, slots[i + 1..], t));
          result := result + [slots[i].value];
        }
        i := i + 1;
      }
      assert slots[i..] == [];
    }

    method Values(t: int) returns (result: seq<B>)
      requires Valid()
      ensures result == if t < 0 then [] else ValuesOf(Live(shape, Contents(), t))
    {
      result := [];
      if t < 0 {
        return;
      }
      var i := 0;
      assert slots[0..] == slots[..];
      while i < shape.samples
        invariant 0 <= i <= shape.samples
        invariant result + ValuesOf(Live(shape, slots[i..], t)) == ValuesOf(Live(shape, slots[..], t))
      {
        assert slots[i..][0] == slots[i] && slots[i..][1..] == slots[i + 1..];
        if slots[i].Some? && t - slots[i].value.start <= shape.interval {
          ValuesStep(result, slots[i].value, Live(shape, slots[i + 1..], t));
          result := result + [slots[i].value.value];
        }
        i := i + 1;
      }
      assert slots[i..] == [];
    }
  }

  function ValuesOf<B>(ws: seq<Wrap<B>>): (r: seq<B>)
    ensures |r| == |ws|
  {
    seq(|ws|, i requires 0 <= i < |ws| => ws[i].value)
  }

  lemma LiveStep<B>(a: seq<Wrap<B>>, w: Wrap<B>, rest: seq<Wrap<B>>)
    ensures (a + [w]) + rest == a + ([w] + rest)
    ensures [] + rest == rest
  {
  }

  lemma ValuesStep<B>(a: seq<B>, w: Wrap<B>, rest: seq<Wrap<B>>)
    ensures (a + [w.value]) + ValuesOf(rest) == a + ValuesOf([w] + rest)
  {
  }
}
