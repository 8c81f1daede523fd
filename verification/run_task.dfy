/** `A_RunTask`: a countdown task with an id from a static counter, the status text it
    prints, and the loop of `run`. */
module RunTasks {
  import opened Wrappers
  import opened JavaLang

  /** The default `countDown`. */
  const DEFAULT_COUNT_DOWN: int := 10

  const LIFTOFF: string := "Liftoff!"

  /** `status()`: `#id(countDown),` while the count is positive, `#id(Liftoff!),` after. */
  function Status(id: int, countDown: int): (s: string)
    ensures ReadStatus(s) == Some((id, if countDown > 0 then Some(countDown) else None))
  {
    StatusReads(id, countDown);
    "#" + IntText(id) + "(" + (if countDown > 0 then IntText(countDown) else LIFTOFF) + "),"
  }

  /** Reads a status back: the id, and the count shown (`None` for "Liftoff!"). */
  function ReadStatus(s: string): Option<(int, Option<int>)> {
    if |s| < 3 || s[0] != '#' || s[|s| - 2..] != ")," then None
    else match SplitAt(s[1..|s| - 2], '(')
      case None => None
      case Some((idText, shown)) =>
        match ParseInt(idText)
        case None => None
        case Some(id) =>
          if shown == LIFTOFF then Some((id, None))
          else match ParseInt(shown)
            case None => None
            case Some(c) => Some((id, Some(c)))
  }

  lemma StatusReads(id: int, countDown: int)
    ensures var shown := if countDown > 0 then IntText(countDown) else LIFTOFF;
      ReadStatus("#" + IntText(id) + "(" + shown + "),") == Some((id, if countDown > 0 then Some(countDown) else None))
  {
    var shown := if countDown > 0 then IntText(countDown) else LIFTOFF;
    var s := "#" + IntText(id) + "(" + shown + "),";
    assert s[1..|s| - 2] == IntText(id) + ['('] + shown;
    assert s[|s| - 2..] == "),";
    SeparatorNotInIntText(id, '(');
    SplitAtJoin(IntText(id), '(', shown);
    IntTextRoundTrip(id);
    if countDown > 0 {
      IntTextRoundTrip(countDown);
      assert IntText(countDown)[0] != 'L';
    }
  }

  /** `A_RunTask`: its id and its `countDown`. */
  class RunTask {
    const id: int
    var countDown: int

    /** `new A_RunTask()`: the id is `taskCount++`, the count 10. */
    constructor Default(taskCount: StaticCounter)
      modifies taskCount
      ensures id == old(taskCount.next) && taskCount.next == old(taskCount.next) + 1
      ensures countDown == DEFAULT_COUNT_DOWN
    {
      id := taskCount.next;
      countDown := DEFAULT_COUNT_DOWN;
      new;
      var _ := taskCount.PostIncrement();
    }

    /** `new A_RunTask(countDown)`: the id is `taskCount++`, the count the one given. */
    constructor (countDown: int, taskCount: StaticCounter)
      requires IsInt(countDown)
      modifies taskCount
      ensures id == old(taskCount.next) && taskCount.next == old(taskCount.next) + 1
      ensures this.countDown == countDown
    {
      id := taskCount.next;
      this.countDown := countDown;
      new;
      var _ := taskCount.PostIncrement();
    }

    /** `run`: `while (countDown-- > 0)` prints a status per pass. From a count c it prints
        c statuses showing c - 1 down to 1 and then "Liftoff!", none when c <= 0; the
        decrement also runs on the failing test, so the count ends one below min(c, 0)
        (wrapping to MAX_VALUE from MIN_VALUE). */
    method Run() returns (printed: seq<string>)
      requires IsInt(countDown)
      modifies this
      ensures var c := old(countDown);
        && |printed| == (if c > 0 then c else 0)
        && (forall j :: 0 <= j < |printed| ==> printed[j] == Status(id, c - 1 - j))
        && countDown == DecInt(if c > 0 then 0 else c)
    {
      printed := [];
      while true
        invariant IsInt(countDown)
        invariant old(countDown) > 0 ==> 0 <= countDown <= old(countDown) && |printed| == old(countDown) - countDown
        invariant old(countDown) <= 0 ==> countDown == old(countDown) && printed == []
        invariant forall j :: 0 <= j < |printed| ==> printed[j] == Status(id, old(countDown) - 1 - j)
        decreases if countDown > 0 then countDown else 0
      {
        var test := countDown > 0;
        countDown := DecInt(countDown);
        if !test {
          break;
        }
        assert countDown == old(countDown) - 1 - |printed|;
        ghost var before := printed;
        printed := printed + [Status(id, countDown)];
        assert forall j :: 0 <= j < |before| ==> printed[j] == before[j];
      }
    }
  }

  /** The statuses of a countdown from c > 0: every one names the task, the counts shown
      fall from c - 1 to 1, and only the last one reads "Liftoff!". */
  lemma CountdownEndsInLiftoff(id: int, c: int, printed: seq<string>)
    requires c > 0 && |printed| == c
    requires forall j :: 0 <= j < c ==> printed[j] == Status(id, c - 1 - j)
    ensures forall j :: 0 <= j < c - 1 ==> ReadStatus(printed[j]) == Some((id, Some(c - 1 - j)))
    ensures ReadStatus(printed[c - 1]) == Some((id, None))
  {
  }
}
