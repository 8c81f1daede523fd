/** `B_CyclicBarrier`: horses that advance 0 to 2 strides per round, their track lines,
    and the barrier action that draws the race and looks for a winner. The draws of
    `random.nextInt(3)` are parameters. */
module HorseRaces {
  import opened Wrappers
  import opened JavaLang

  /** `HorseRace.FINISH_LINE`. */
  const FINISH_LINE: int := 75

  /** The number of leading '*' characters of `s`. */
  function Stars(s: string): (n: nat)
    ensures n <= |s| && forall i :: 0 <= i < n ==> s[i] == '*'
    ensures n < |s| ==> s[n] != '*'
    decreases |s|
  {
    if s != [] && s[0] == '*' then 1 + Stars(s[1..]) else 0
  }

  /** Reads a track line back: the strides drawn and the horse's id. */
  function ReadTrack(s: string): Option<(nat, int)> {
    var n := Stars(s);
    match ParseInt(s[n..])
    case Some(id) => Some((n, id))
    case None => None
  }

  /** The track line names both the distance run and the horse. */
  lemma {:induction false} TrackRoundTrip(strides: nat, id: int)
    ensures ReadTrack(Repeat('*', strides) + IntText(id)) == Some((strides, id))
    decreases strides
  {
    var s := Repeat('*', strides) + IntText(id);
    assert s[strides] == IntText(id)[0];
    assert Stars(s) == strides by {
      StarsOfPrefix(Repeat('*', strides), IntText(id));
    }
    assert s[strides..] == IntText(id);
    IntTextRoundTrip(id);
  }

  lemma {:induction false} StarsOfPrefix(stars: string, rest: string)
    requires forall i :: 0 <= i < |stars| ==> stars[i] == '*'
    requires rest != [] && rest[0] != '*'
    ensures Stars(stars + rest) == |stars|
    decreases |stars|
  {
    if stars != [] {
      assert (stars + rest)[1..] == stars[1..] + rest;
      StarsOfPrefix(stars[1..], rest);
    } else {
      assert stars + rest == rest;
    }
  }

  /** `Horse`: its id and the strides it has run. */
  class Horse {
    const id: int
    var strides: int

    /** `new Horse(barrier)` given the id `counter++` handed out. */
    constructor (id: int)
      ensures this.id == id && strides == 0
    {
      this.id := id;
      strides := 0;
    }

    /** One pass of the `while` loop of `run`, before `await`: `strides += nextInt(3)`. */
    method Stride(draw: int)
      requires 0 <= draw < 3
      modifies this
      ensures old(strides) <= strides <= old(strides) + 2
      ensures strides == old(strides) + draw
    {
      strides := strides + draw;
    }

    /** `tracks()`: one '*' per stride, then the id. */
    method Tracks() returns (s: string)
      ensures s == Repeat('*', strides) + IntText(id)
    {
      s := [];
      var i := 0;
      while i < strides
        invariant s == Repeat('*', i) && (strides >= 0 ==> i <= strides)
        invariant strides < 0 ==> i == 0
      {
        s := s + "*";
        i := i + 1;
      }
      s := s + IntText(id);
    }
  }

  /** The first index of a horse that has reached the finish line, in list order. */
  function FirstFinisher(strides: seq<int>): (w: Option<nat>)
    ensures w.Some? ==>
      && w.value < |strides| && strides[w.value] >= FINISH_LINE
      && forall j :: 0 <= j < w.value ==> strides[j] < FINISH_LINE
    ensures w.None? <==> forall j :: 0 <= j < |strides| ==> strides[j] < FINISH_LINE
    decreases |strides|
  {
    if strides == [] then None
    else if strides[0] >= FINISH_LINE then Some(0)
    else match FirstFinisher(strides[1..])
      case None => None
      case Some(j) => Some(j + 1)
  }

  /** The strides of the horses, in list order. */
  function StridesOf(horses: seq<Horse>): (r: seq<int>)
    reads set h | h in horses
    ensures |r| == |horses| && forall j :: 0 <= j < |horses| ==> r[j] == horses[j].strides
  {
    seq(|horses|, j reads set h | h in horses requires 0 <= j < |horses| => horses[j].strides)
  }

  /** What the barrier action prints and decides after a round. */
  datatype Report = Report(header: string, tracks: seq<string>, winner: Option<nat>)

  /** `HorseRace`: the horses in creation order. */
  class HorseRace {
    const horses: seq<Horse>

    /** Horses have consecutive ids in list order, so they are distinct. */
    ghost predicate Valid()
      reads this
    {
      |horses| > 0 && forall j :: 0 <= j < |horses| ==> horses[j].id == horses[0].id + j
    }

    /** `new HorseRace(nHorses, pause)`: `nHorses` horses, numbered on from the static
        counter, all at the start. (`new CyclicBarrier(nHorses, ...)` rejects a count
        below 1 with `IllegalArgumentException` before any horse exists.) */
    constructor (nHorses: int, counter: StaticCounter)
      requires nHorses >= 1
      modifies counter
      ensures Valid() && |horses| == nHorses
      ensures counter.next == old(counter.next) + nHorses
      ensures forall j :: 0 <= j < nHorses ==> horses[j].id == old(counter.next) + j && horses[j].strides == 0 && fresh(horses[j])
    {
      var made: seq<Horse> := [];
      var i := 0;
      while i < nHorses
        invariant 0 <= i <= nHorses && |made| == i
        invariant counter.next == old(counter.next) + i
        invariant forall j :: 0 <= j < i ==> made[j].id == old(counter.next) + j && made[j].strides == 0 && fresh(made[j])
      {
        var id := counter.PostIncrement();
        var horse := new Horse(id);
        made := made + [horse];
        i := i + 1;
      }
      horses := made;
    }

    /** One round of the race before the barrier trips: every horse strides once. */
    method Round(draws: seq<int>)
      requires Valid() && |draws| == |horses|
      requires forall j :: 0 <= j < |draws| ==> 0 <= draws[j] < 3
      modifies set h | h in horses
      ensures forall j :: 0 <= j < |horses| ==> horses[j].strides == old(horses[j].strides) + draws[j]
      // no horse ever loses ground
      ensures forall j :: 0 <= j < |horses| ==> old(horses[j].strides) <= horses[j].strides
    {
      var i := 0;
      while i < |horses|
        invariant 0 <= i <= |horses|
        invariant forall j :: 0 <= j < i ==> horses[j].strides == old(horses[j].strides) + draws[j]
        invariant forall j :: i <= j < |horses| ==> horses[j].strides == old(horses[j].strides)
      {
        horses[i].Stride(draws[i]);
        i := i + 1;
      }
    }

    /** The first line the barrier action prints: FINISH_LINE '=' characters. */
    method Header() returns (header: string)
      ensures header == Repeat('=', FINISH_LINE)
    {
      header := [];
      for i := 0 to FINISH_LINE
        invariant header == Repeat('=', i)
      {
        header := header + "=";
      }
    }

    /** One track line per horse, in list order. */
    method TrackLines() returns (tracks: seq<string>)
      ensures |tracks| == |horses|
      ensures forall j :: 0 <= j < |horses| ==> tracks[j] == Repeat('*', horses[j].strides) + IntText(horses[j].id)
    {
      tracks := [];
      for i := 0 to |horses|
        invariant |tracks| == i
        invariant forall j :: 0 <= j < i ==> tracks[j] == Repeat('*', horses[j].strides) + IntText(horses[j].id)
      {
        var line := horses[i].Tracks();
        tracks := tracks + [line];
      }
    }

    /** The scan for a winner: the first horse in list order that has reached the finish
        line, if any. */
    method Winner() returns (winner: Option<nat>)
      ensures winner == FirstFinisher(StridesOf(horses))
    {
      winner := None;
      var i := 0;
      while i < |horses|
        invariant 0 <= i <= |horses|
        invariant forall j :: 0 <= j < i ==> horses[j].strides < FINISH_LINE
      {
        if horses[i].strides >= FINISH_LINE {
          winner := Some(i);
          break;
        }
        i := i + 1;
      }
      FirstFinisherIsFirst(StridesOf(horses), i);
    }

    /** The barrier action: the header, the track lines and the winner; the race is shut
        down exactly when there is one. */
    method BarrierAction() returns (report: Report)
      requires Valid()
      ensures report.header == Repeat('=', FINISH_LINE)
      ensures |report.tracks| == |horses|
      ensures forall j :: 0 <= j < |horses| ==> report.tracks[j] == Repeat('*', horses[j].strides) + IntText(horses[j].id)
      ensures report.winner == FirstFinisher(StridesOf(horses))
    {
      var header := Header();
      var tracks := TrackLines();
      var winner := Winner();
      report := Report(header, tracks, winner);
    }
  }

  /** The first finisher is the first index at or past the finish line. */
  lemma {:induction false} FirstFinisherIsFirst(strides: seq<int>, i: nat)
    requires i <= |strides| && forall j :: 0 <= j < i ==> strides[j] < FINISH_LINE
    ensures i < |strides| && strides[i] >= FINISH_LINE ==> FirstFinisher(strides) == Some(i)
    ensures i == |strides| ==> FirstFinisher(strides) == None
  {
    var w := FirstFinisher(strides);
    if w.Some? {
      assert w.value >= i;
    }
  }
}
