/**
 * The world manager: a write-once cell holding the world of one simulation.
 *
 * The domain manager and the market manager are collaborators whose code is not
 * part of this model; they appear as objects whose identity is all that is kept.
 */
module WorldManagers {

  import opened Options

  /** A domain manager (accounts, endowments, valuations); only its identity is modelled. */
  class DomainManager {
  }

  /** A market manager; only its identity is modelled. */
  class MarketManager {
  }

  /** A world: the domain manager and market manager it was built from. */
  datatype World = World(domain: DomainManager, markets: MarketManager)

  class WorldManager {
    /** The stored world; `None` stands for the null reference before the first creation. */
    var world: Option<World>
    var lock: bool

    /** The lock is set exactly when a world is stored. */
    ghost predicate Valid()
      reads this
    {
      lock <==> world.Some?
    }

    /** A new manager is unlocked and holds no world. */
    constructor ()
      ensures Valid()
      ensures !lock && world == None
    {
      world := None;
      lock := false;
    }

    /**
     * The first call stores a world built from `domain` and `markets` and locks;
     * every later call is denied and changes nothing. No method clears the lock,
     * so once locked the stored world never changes.
     */
    method CreateWorld(domain: DomainManager, markets: MarketManager)
      requires Valid()
      modifies this
      ensures Valid() && lock
      ensures !old(lock) ==> world == Some(World(domain, markets))
      ensures old(lock) ==> world == old(world)
    {
      if !lock {
        world := Some(World(domain, markets));
        lock := true;
      } else {
        // creation denied: the world manager is locked
      }
    }

    /** The stored world, with no change of state. */
    method GetWorld() returns (w: Option<World>)
      requires Valid()
      ensures w == world
      ensures w.Some? <==> lock
    {
      w := world;
    }
  }
}
