/** The accelerator with the descriptors of descriptors.h, from the source memory to the loopback area. */
module ShippedProcessor {
  import opened DmaEngine
  import opened Systolic
  import opened Convolution
  import opened Loopback
  import opened Processor

  function ShippedFill(i: nat): (ds: seq<Descriptor>)
    requires i < 3
  {
    [Descriptor(1, 0, 3, 1 + 100 * i, 1), Descriptor(2, 0, 1, 100, 1), Descriptor(0, 0, 0, 0, 1)]
  }

  function Shipped(weights: seq<int>, source: seq<int>, rams: seq<seq<int>>, late: (nat, nat) -> bool): Processor<int> {
    Processor(INTEGERS, 9, 3, weights, 300, [ShippedFill(0), ShippedFill(1), ShippedFill(2)], ShippedPrograms(),
              [0, 0, 0, 1, 1, 1, 2, 2, 2], SHIPPED_LOOPBACK, source, rams, late)
  }

  function ShippedSchedule(): Schedule {
    Schedule(100, 3, 300, ShippedStarts(), 100, 327, 512, 100)
  }

  ghost predicate Sized(weights: seq<int>, source: seq<int>, rams: seq<seq<int>>) {
    |weights| == 27 && |source| >= 612 && |rams| == 3 && forall i :: 0 <= i < 3 ==> |rams[i]| == 200
  }

  lemma ShippedWired(weights: seq<int>, source: seq<int>, rams: seq<seq<int>>, late: (nat, nat) -> bool)
    requires Sized(weights, source, rams)
    ensures WellWired(Shipped(weights, source, rams, late))
  {
  }

  lemma ShippedFills(weights: seq<int>, source: seq<int>, rams: seq<seq<int>>, late: (nat, nat) -> bool, i: nat)
    requires Sized(weights, source, rams) && i < 3
    ensures IsWaitTransfer(Shipped(weights, source, rams, late).fills[i], FillWait(ShippedSchedule(), i), 0, 100)
  {
  }

  lemma ShippedGroups(weights: seq<int>, source: seq<int>, rams: seq<seq<int>>, late: (nat, nat) -> bool, g: nat)
    requires Sized(weights, source, rams) && g < 9
    ensures WellWired(Shipped(weights, source, rams, late))
    ensures GroupScheduled(Shipped(weights, source, rams, late), ShippedSchedule(), g)
  {
    ShippedWired(weights, source, rams, late);
    assert g == 0 || g == 1 || g == 2 || g == 3 || g == 4 || g == 5 || g == 6 || g == 7 || g == 8;
  }

  /** The shipped descriptors are a schedule: every RAM is complete before a group reads it. */
  lemma ShippedScheduled(weights: seq<int>, source: seq<int>, rams: seq<seq<int>>, late: (nat, nat) -> bool)
    requires Sized(weights, source, rams)
    ensures Scheduled(Shipped(weights, source, rams, late), ShippedSchedule())
  {
    hide GroupScheduled, IsWaitTransfer, WellWired, FillWait;
    var p := Shipped(weights, source, rams, late);
    ShippedWired(weights, source, rams, late);
    forall i | 0 <= i < 3 ensures IsWaitTransfer(p.fills[i], FillWait(ShippedSchedule(), i), 0, 100) {
      ShippedFills(weights, source, rams, late, i);
    }
    forall g | 0 <= g < 9 ensures GroupScheduled(p, ShippedSchedule(), g) {
      ShippedGroups(weights, source, rams, late, g);
    }
    ShippedBack();
  }

  lemma ShippedBack()
    ensures IsWaitTransfer(SHIPPED_LOOPBACK, 327, 512, 100)
  {
  }

  /** The three 10 x 10 images the source memory starts with. */
  function SourceImages(source: seq<int>): (images: seq<seq<int>>)
    requires |source| >= 300
  {
    [source[..100], source[100..200], source[200..300]]
  }

  lemma FinalImages(weights: seq<int>, source: seq<int>, rams: seq<seq<int>>, late: (nat, nat) -> bool)
    returns (images: seq<seq<int>>)
    requires Sized(weights, source, rams)
    ensures Scheduled(Shipped(weights, source, rams, late), ShippedSchedule())
    ensures ShippedSizes(weights, images)
    ensures Final(Shipped(weights, source, rams, late), ShippedSchedule()) == ShippedChain(weights, images)
    ensures Extends(ShippedLayer(weights, SourceImages(source)), ShippedLayer(weights, images))
  {
    var p := Shipped(weights, source, rams, late);
    ShippedScheduled(weights, source, rams, late);
    hide Scheduled, WellWired;
    images := [Complete(p, ShippedSchedule(), 0), Complete(p, ShippedSchedule(), 1), Complete(p, ShippedSchedule(), 2)];
    assert Final(p, ShippedSchedule()).rams == ShippedChain(weights, images).rams;
  }

  /** End to end: whatever the RAMs held and in whatever order the engines run within an edge, the convolution
      of the three images at row y, column x is in word 513 + 10 * y + x of the source memory from edge
      328 + 10 * y + x on. */
  lemma SourceToLoopback(weights: seq<int>, source: seq<int>, rams: seq<seq<int>>, late: (nat, nat) -> bool,
                         y: nat, x: nat, t: nat)
    requires Sized(weights, source, rams) && y <= 7 && x <= 7 && t > 328 + (10 * y + x)
    ensures Inside(ShippedLayer(weights, SourceImages(source)), y, x)
    ensures WellWired(Shipped(weights, source, rams, late))
    ensures |At(Shipped(weights, source, rams, late), t).source| == |source|
    ensures At(Shipped(weights, source, rams, late), t).source[512 + (10 * y + x) + 1] ==
            SumChannels(ShippedLayer(weights, SourceImages(source)), y, x, 3)
  {
    hide SumChannels, At, Register, Scheduled;
    var p := Shipped(weights, source, rams, late);
    var images := FinalImages(weights, source, rams, late);
    ShippedProgramConvolves(weights, images, y, x);
    SourceExactly(p, ShippedSchedule(), t, 512 + (10 * y + x) + 1);
    SameChannels(ShippedLayer(weights, SourceImages(source)), ShippedLayer(weights, images), y, x, 3);
  }
}
