/** `D_BlockingQueue`: the toast pipeline. A toaster appends new dry toasts to the dry
    queue, a butterer and a jammer each move the head of one queue to the tail of the
    next, and an eater checks that finished toasts arrive in order, jammed. The threads
    become steps a schedule picks one at a time. */
module ToastPipeline {
  /** `Toast.Status`. */
  datatype Status = Dry | Buttered | Jammed

  /** `Toast`: a fixed id and a status that the stages update in place. */
  class Toast {
    const id: int
    var status: Status

    /** `new Toast(id)`: a new toast is dry. */
    constructor (id: int)
      ensures this.id == id && status == Dry
    {
      this.id := id;
      status := Dry;
    }

    /** `butter()`: the toast is buttered, whatever it was. */
    method Butter()
      modifies this
      ensures status == Buttered
    {
      status := Buttered;
    }

    /** `jam()`: the toast is jammed, whatever it was. */
    method Jam()
      modifies this
      ensures status == Jammed
    {
      status := Jammed;
    }
  }

  /** The stage a schedule runs next. */
  datatype Stage = Toaster | Butterer | Jammer | Eater

  /** The three `ToastQueue`s (head first), the toaster's `count` and the eater's
      `counter`. */
  class Kitchen {
    var dry: seq<Toast>
    var buttered: seq<Toast>
    var finished: seq<Toast>
    var count: int
    var counter: int

    /** Every toast in the pipeline, oldest first. */
    function InFlight(): seq<Toast>
      reads this
    {
      finished + buttered + dry
    }

    /** The toasts in flight are the ones numbered from the eater's counter up to the
        toaster's count, in order, and each queue holds toasts of its own status. */
    ghost predicate Valid()
      reads this, dry, buttered, finished
    {
      && count == counter + |InFlight()|
      && (forall j :: 0 <= j < |InFlight()| ==> InFlight()[j].id == counter + j)
      && (forall t :: t in dry ==> t.status == Dry)
      && (forall t :: t in buttered ==> t.status == Buttered)
      && (forall t :: t in finished ==> t.status == Jammed)
    }

    constructor ()
      ensures dry == [] && buttered == [] && finished == [] && count == 0 && counter == 0
      ensures Valid()
    {
      dry, buttered, finished := [], [], [];
      count, counter := 0, 0;
    }

    /** A toast is in at most one queue, at one place: stages move toasts, never copy them. */
    lemma NoToastTwice()
      requires Valid()
      ensures forall i, j :: 0 <= i < j < |InFlight()| ==> InFlight()[i] != InFlight()[j]
      ensures dry != [] ==> dry[0] !in finished + buttered + dry[1..]
      ensures buttered != [] ==> buttered[0] !in finished + buttered[1..] + dry
    {
      var all := InFlight();
      if dry != [] {
        var h := |finished + buttered|;
        assert all[h] == dry[0];
        forall u | u in finished + buttered + dry[1..]
          ensures u != dry[0]
        {
          var k :| 0 <= k < |finished + buttered + dry[1..]| && (finished + buttered + dry[1..])[k] == u;
          if k < h {
            assert u == all[k];
          } else {
            assert u == all[k + 1];
          }
        }
      }
      if buttered != [] {
        var h := |finished|;
        assert all[h] == buttered[0];
        forall u | u in finished + buttered[1..] + dry
          ensures u != buttered[0]
        {
          var k :| 0 <= k < |finished + buttered[1..] + dry| && (finished + buttered[1..] + dry)[k] == u;
          if k < h {
            assert u == all[k];
          } else {
            assert u == all[k + 1];
          }
        }
      }
      forall i, j | 0 <= i < j < |InFlight()|
        ensures InFlight()[i] != InFlight()[j]
      {
        assert InFlight()[i].id != InFlight()[j].id;
      }
    }

    /** One pass of `Toaster.run`: a new dry toast numbered `count++` joins the tail of
        the dry queue. */
    method ToastOne()
      requires Valid()
      modifies this
      ensures Valid()
      ensures |dry| == |old(dry)| + 1 && dry[..|old(dry)|] == old(dry)
      ensures dry[|old(dry)|].id == old(count) && fresh(dry[|old(dry)|])
      ensures count == old(count) + 1
      ensures buttered == old(buttered) && finished == old(finished) && counter == old(counter)
    {
      var t := new Toast(count);
      count := count + 1;
      assert InFlight() + [t] == finished + buttered + (dry + [t]);
      dry := dry + [t];
    }

    /** One pass of `Butter.run`: the head of the dry queue is buttered and moved to the
        tail of the buttered queue; `take` blocks on an empty queue. */
    method ButterOne() returns (blocked: bool)
      requires Valid()
      modifies this, if dry == [] then {} else {dry[0]}
      ensures Valid()
      ensures blocked <==> old(dry) == []
      ensures !blocked ==> dry == old(dry)[1..] && buttered == old(buttered) + [old(dry)[0]]
      ensures blocked ==> dry == old(dry) && buttered == old(buttered)
      ensures finished == old(finished) && count == old(count) && counter == old(counter)
    {
      if dry == [] {
        return true;
      }
      NoToastTwice();
      var t := dry[0];
      ghost var all := InFlight();
      t.Butter();
      dry := dry[1..];
      buttered := buttered + [t];
      assert InFlight() == all;
      blocked := false;
    }

    /** One pass of `Jammer.run`: the head of the buttered queue is jammed and moved to
        the tail of the finished queue. */
    method JamOne() returns (blocked: bool)
      requires Valid()
      modifies this, if buttered == [] then {} else {buttered[0]}
      ensures Valid()
      ensures blocked <==> old(buttered) == []
      ensures !blocked ==> buttered == old(buttered)[1..] && finished == old(finished) + [old(buttered)[0]]
      ensures blocked ==> buttered == old(buttered) && finished == old(finished)
      ensures dry == old(dry) && count == old(count) && counter == old(counter)
    {
      if buttered == [] {
        return true;
      }
      NoToastTwice();
      var t := buttered[0];
      ghost var all := InFlight();
      t.Jam();
      buttered := buttered[1..];
      finished := finished + [t];
      assert InFlight() == all;
      blocked := false;
    }

    /** One pass of `Eater.run`: takes the head of the finished queue and checks that it
        is the next toast (`counter++`) and jammed. The check never fails. */
    method EatOne() returns (blocked: bool, ok: bool)
      requires Valid()
      modifies this
      ensures Valid()
      ensures blocked <==> old(finished) == []
      ensures !blocked ==> finished == old(finished)[1..] && counter == old(counter) + 1
      ensures blocked ==> finished == old(finished) && counter == old(counter)
      ensures ok
      ensures dry == old(dry) && buttered == old(buttered) && count == old(count)
    {
      if finished == [] {
        return true, true;
      }
      var t := finished[0];
      assert t == InFlight()[0];
      ok := t.id == counter && t.status == Jammed;
      counter := counter + 1;
      assert InFlight()[1..] == finished[1..] + buttered + dry;
      finished := finished[1..];
      blocked := false;
    }

    /** Runs the stages in the order a schedule picks them. Whatever the interleaving, the
        eater's check never fails (`failed`, the `System.exit(1)` path, stays false) and
        the eater's counter moves once per toast eaten. */
    method Run(schedule: seq<Stage>) returns (failed: bool, eaten: nat)
      requires Valid()
      modifies this, set t | t in InFlight()
      ensures Valid()
      ensures !failed
      ensures counter == old(counter) + eaten
    {
      failed, eaten := false, 0;
      for k := 0 to |schedule|
        invariant Valid() && !failed
        invariant counter == old(counter) + eaten
        invariant forall t :: t in InFlight() ==> t in old(InFlight()) || fresh(t)
      {
        match schedule[k]
        case Toaster =>
          ToastOne();
        case Butterer =>
          var _ := ButterOne();
        case Jammer =>
          var _ := JamOne();
        case Eater =>
          var blocked, ok := EatOne();
          if !blocked {
            eaten := eaten + 1;
          }
          failed := failed || !ok;
      }
    }
  }
}
