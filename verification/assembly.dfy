/** `A_Assignment`: cars whose parts are added one flag at a time, the chassis builder's
    id counter, and the pool robots are hired from and released to. The blocking waits
    and the threads are not part of this model. */
module CarAssembly {
  import opened Wrappers

  /** `Car`: a fixed id and one flag per part installed. */
  class Car {
    const id: int
    var engine: bool
    var driveTrain: bool
    var wheels: bool

    /** `new Car(id)`: no part installed yet. */
    constructor (id: int)
      ensures this.id == id && !engine && !driveTrain && !wheels
    {
      this.id := id;
      engine, driveTrain, wheels := false, false, false;
    }

    /** `new Car()`: the id is -1. */
    constructor Unnumbered()
      ensures id == -1 && !engine && !driveTrain && !wheels
    {
      id := -1;
      engine, driveTrain, wheels := false, false, false;
    }

    /** `addEngine`: sets its own flag and no other. */
    method AddEngine()
      modifies this
      ensures engine && driveTrain == old(driveTrain) && wheels == old(wheels)
    {
      engine := true;
    }

    /** `addDriveTrain`: sets its own flag and no other. */
    method AddDriveTrain()
      modifies this
      ensures driveTrain && engine == old(engine) && wheels == old(wheels)
    {
      driveTrain := true;
    }

    /** `addWheels`: sets its own flag and no other. */
    method AddWheels()
      modifies this
      ensures wheels && engine == old(engine) && driveTrain == old(driveTrain)
    {
      wheels := true;
    }
  }

  /** `ChassisBuilder`: the builder's id counter. */
  class ChassisBuilder {
    var counter: int

    constructor ()
      ensures counter == 0
    {
      counter := 0;
    }

    /** `incrementCounter`: `counter++`. */
    method IncrementCounter() returns (id: int)
      modifies this
      ensures id == old(counter) && counter == old(counter) + 1
    {
      id := counter;
      counter := counter + 1;
    }

    /** `n` passes of `run`: `n` new chassis numbered on from the counter, so the cars
        built get distinct ids in order. */
    method BuildChassis(n: nat) returns (cars: seq<Car>)
      modifies this
      ensures |cars| == n && counter == old(counter) + n
      ensures forall j :: 0 <= j < n ==> cars[j].id == old(counter) + j && fresh(cars[j])
      ensures forall j :: 0 <= j < n ==> !cars[j].engine && !cars[j].driveTrain && !cars[j].wheels
    {
      cars := [];
      while |cars| < n
        invariant |cars| <= n && counter == old(counter) + |cars|
        invariant forall j :: 0 <= j < |cars| ==> cars[j].id == old(counter) + j && fresh(cars[j])
        invariant forall j :: 0 <= j < |cars| ==> !cars[j].engine && !cars[j].driveTrain && !cars[j].wheels
      {
        var id := IncrementCounter();
        var c := new Car(id);
        cars := cars + [c];
      }
    }
  }

  /** The runtime class of a robot, and `Robot.class` itself. */
  datatype RobotClass = AbstractRobot | EngineRobot | DriveTrainRobot | WheelRobot

  /** `Assembler`: the car on its line. */
  class Assembler {
    var car: Car

    constructor (car: Car)
      ensures this.car == car
    {
      this.car := car;
    }
  }

  /** `Robot`: its runtime class (never the abstract `Robot` itself), its pool, the
      assembler it works for and whether it is engaged. */
  class Robot {
    const kind: RobotClass
    const pool: RobotPool
    var assembler: Assembler?
    var engage: bool

    constructor (kind: RobotClass, pool: RobotPool)
      requires kind != AbstractRobot
      ensures this.kind == kind && this.pool == pool && assembler == null && !engage
    {
      this.kind := kind;
      this.pool := pool;
      assembler := null;
      engage := false;
    }

    /** `performService`: installs the part this kind of robot installs on the car of its
        assembler. Only an engaged robot, which `hire` gave an assembler, runs it. */
    method PerformService()
      requires assembler != null && kind != AbstractRobot
      modifies assembler.car
      ensures var car := assembler.car;
        && (kind == EngineRobot ==> car.engine && car.driveTrain == old(car.driveTrain) && car.wheels == old(car.wheels))
        && (kind == DriveTrainRobot ==> car.driveTrain && car.engine == old(car.engine) && car.wheels == old(car.wheels))
        && (kind == WheelRobot ==> car.wheels && car.engine == old(car.engine) && car.driveTrain == old(car.driveTrain))
    {
      match kind
      case EngineRobot => assembler.car.AddEngine();
      case DriveTrainRobot => assembler.car.AddDriveTrain();
      case WheelRobot => assembler.car.AddWheels();
    }

    /** `powerDown` up to its wait: disengaged, no assembler, and back in its pool. */
    method PowerDown()
      modifies this, pool
      ensures !engage && assembler == null
      ensures pool.robots == old(pool.robots) + {this}
    {
      engage := false;
      assembler := null;
      pool.Release(this);
    }
  }

  /** `RobotPool`: the `HashSet` of robots waiting to be hired. */
  class RobotPool {
    var robots: set<Robot>

    constructor ()
      ensures robots == {}
    {
      robots := {};
    }

    /** `add`. */
    method Add(r: Robot)
      modifies this
      ensures robots == old(robots) + {r}
    {
      robots := robots + {r};
    }

    /** `release`: exactly what `add` does. */
    method Release(r: Robot)
      modifies this
      ensures robots == old(robots) + {r}
    {
      Add(r);
    }

    /** `hire(robotType, d)` when the pool holds a robot whose class is exactly
        `robotType`: that one robot leaves the pool, is assigned to `d` and engaged, and
        the rest stay. With no such robot, `hire` waits (`found` is `None`, nothing
        changes). Which match is taken depends on the set's iteration order. */
    method Hire(robotType: RobotClass, d: Assembler) returns (found: Option<Robot>)
      modifies this, robots
      ensures found.None? <==> forall r :: r in old(robots) ==> r.kind != robotType
      ensures found.None? ==> robots == old(robots)
      ensures found.Some? ==>
        && found.value in old(robots) && found.value.kind == robotType
        && robots == old(robots) - {found.value}
        && found.value.assembler == d && found.value.engage
      ensures forall r :: r in old(robots) && found != Some(r) ==> r.assembler == old(r.assembler) && r.engage == old(r.engage)
    {
      var rest := robots;
      while rest != {}
        invariant rest <= robots && robots == old(robots)
        invariant forall r :: r in robots - rest ==> r.kind != robotType
        invariant forall r :: r in old(robots) ==> r.assembler == old(r.assembler) && r.engage == old(r.engage)
        decreases rest
      {
        var r :| r in rest;
        if r.kind == robotType {
          robots := robots - {r};
          r.assembler := d;
          r.engage := true;
          return Some(r);
        }
        rest := rest - {r};
      }
      return None;
    }
  }

  /** One car through the line, run in sequence: the assembler hires an engine, a drive
      train and a wheel robot, each installs its part, and each powers down back into
      the pool. The car leaves with every part and the pool ends as it started. */
  method AssembleCar(pool: RobotPool, d: Assembler)
    requires forall r :: r in pool.robots ==> r.pool == pool && r.kind != AbstractRobot
    requires exists r :: r in pool.robots && r.kind == EngineRobot
    requires exists r :: r in pool.robots && r.kind == DriveTrainRobot
    requires exists r :: r in pool.robots && r.kind == WheelRobot
    modifies pool, pool.robots, d.car
    ensures d.car == old(d.car) && d.car.engine && d.car.driveTrain && d.car.wheels
    ensures pool.robots == old(pool.robots)
  {
    ghost var all := pool.robots;
    var e := pool.Hire(EngineRobot, d);
    var t := pool.Hire(DriveTrainRobot, d);
    var w := pool.Hire(WheelRobot, d);
    var engine, train, wheel := e.value, t.value, w.value;
    assert pool.robots == all - {engine, train, wheel};
    InstallParts(engine, train, wheel, d);
    PowerDownAll(engine, train, wheel, pool);
    PutBack(all, engine, train, wheel);
  }

  /** While the three hired robots work (the barrier wait of `run`), each installs its
      part on the assembler's car. */
  method InstallParts(engine: Robot, train: Robot, wheel: Robot, d: Assembler)
    requires engine.kind == EngineRobot && train.kind == DriveTrainRobot && wheel.kind == WheelRobot
    requires engine.assembler == d && train.assembler == d && wheel.assembler == d
    modifies d.car
    ensures d.car.engine && d.car.driveTrain && d.car.wheels
  {
    engine.PerformService();
    train.PerformService();
    wheel.PerformService();
  }

  /** The three robots power down, each back into its pool. */
  method PowerDownAll(engine: Robot, train: Robot, wheel: Robot, pool: RobotPool)
    requires engine.pool == pool && train.pool == pool && wheel.pool == pool
    modifies engine, train, wheel, pool
    ensures pool.robots == old(pool.robots) + {engine} + {train} + {wheel}
  {
    engine.PowerDown();
    train.PowerDown();
    wheel.PowerDown();
  }

  /** Taking three members out of a set and adding them back gives the set again. */
  lemma PutBack<T>(all: set<T>, a: T, b: T, c: T)
    requires a in all && b in all && c in all
    ensures (all - {a, b, c}) + {a} + {b} + {c} == all
  {
  }
}
