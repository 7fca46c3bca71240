/** How a call can end, and the durable tables every owner journals to.

    A call that changes hardware or storage may succeed, may raise, or may be the
    last thing the process does.  A call that raises, or that the process dies in,
    may or may not have taken effect.  */
module Outcomes {

  datatype Option<+T> = None | Some(value: T)

  /** A computation that either yields a value or raises. */
  datatype Result<+T> = Ok(value: T) | Error

  /** The end of a call with effects.  `Crashed` is process death: no handler runs after it. */
  datatype Outcome = Done | Raised | Crashed {
    predicate IsFailure() {
      !Done?
    }
    function PropagateFailure(): Outcome
      requires IsFailure()
    {
      this
    }
  }

  /** Some element, in no particular order. */
  method Pick<T>(s: set<T>) returns (x: T)
    requires s != {}
    ensures x in s
  {
    x :| x in s;
  }

  /** What may befall one step on hardware or storage. */
  datatype Fate = Acknowledged | LostBefore | LostAfter | DiedBefore | DiedAfter {
    predicate TakesEffect() {
      Acknowledged? || LostAfter? || DiedAfter?
    }
    function Ending(): Outcome {
      match this
      case Acknowledged => Done
      case LostBefore | LostAfter => Raised
      case DiedBefore | DiedAfter => Crashed
    }
  }

  /** A durable table with atomic rows.  The environment sets `healthy`, while which no call fails, and `omen`, which
      otherwise decides what befalls every call. */
  class Store<K(==), V> {
    var rows: map<K, V>
    var healthy: bool
    var omen: Option<Fate>
    ghost var doubts: set<K>   // the keys whose last call, as this process saw it, was not acknowledged

    constructor ()
      ensures rows == map[] && doubts == {}
    {
      rows := map[];
      healthy, omen, doubts := true, None, {};
    }

    method Befall() returns (fate: Fate)
      ensures healthy ==> fate == Acknowledged
      ensures !healthy && omen.Some? ==> fate == omen.value
    {
      fate := *;
      if healthy {
        fate := Acknowledged;
      } else if omen.Some? {
        fate := omen.value;
      }
    }

    /** A process that starts reads the whole table and is in doubt about none of it. */
    method Load() returns (contents: map<K, V>)
      modifies this`doubts
      ensures contents == rows && doubts == {}
    {
      doubts := {};
      return rows;
    }

    method Put(key: K, value: V) returns (r: Outcome)
      modifies this`rows, this`doubts
      ensures rows == old(rows) || rows == old(rows)[key := value]
      ensures r.Done? ==> rows == old(rows)[key := value]
      ensures doubts == if r.Done? then old(doubts) - {key} else old(doubts) + {key}
      ensures healthy ==> r.Done?
      ensures !healthy && omen.Some? ==>
                r == omen.value.Ending() && rows == if omen.value.TakesEffect() then old(rows)[key := value] else old(rows)
    {
      var fate := Befall();
      if fate.TakesEffect() {
        rows := rows[key := value];
      }
      r := fate.Ending();
      doubts := if r.Done? then doubts - {key} else doubts + {key};
    }

    method Delete(key: K) returns (r: Outcome)
      modifies this`rows, this`doubts
      ensures rows == old(rows) || rows == old(rows) - {key}
      ensures r.Done? ==> rows == old(rows) - {key}
      ensures doubts == if r.Done? then old(doubts) - {key} else old(doubts) + {key}
      ensures healthy ==> r.Done?
      ensures !healthy && omen.Some? ==>
                r == omen.value.Ending() && rows == if omen.value.TakesEffect() then old(rows) - {key} else old(rows)
    {
      var fate := Befall();
      if fate.TakesEffect() {
        rows := rows - {key};
      }
      r := fate.Ending();
      doubts := if r.Done? then doubts - {key} else doubts + {key};
    }
  }
}
