/** The hardware flow table behind the native session adapter.

    No acknowledgement of a write is trusted: a call may report success, raise or be
    cut short by process death, each with or without effect.  Only a lookup that
    answers is believed.  While `healthy` holds no call fails. */
module FlowTable {
  import opened Outcomes
  import opened FlowCodec

  /** What a lookup finds: an entry the codec accepts, or something else. */
  datatype Cell = Flow(entry: Entry) | Alien(tag: int)

  datatype Lookup = Found(entry: Entry) | Absent | Unreadable

  /** The two forms under which a journaled entry is recognised as one's own. */
  predicate IsVariant(c: Cell, e: Entry) {
    c == Flow(e) || c == Flow(e.Bare())
  }

  datatype Operation = FlowAdd | FlowUpdate | FlowDelete

  class Adapter {
    var table: map<Key, Cell>
    var foreign: map<Key, Cell>         // the part of the table that others wrote; no owner reads it
    var healthy: bool
    var ready: bool                     // no readiness reason is reported
    var natQualified: bool

    ghost predicate Valid()
      reads this
    {
      && (forall k :: k in table && table[k].Flow? ==> table[k].entry.key == k)
      && (forall k :: k in foreign ==> k in table && table[k] == foreign[k])
    }

    constructor (contents: map<Key, Cell>)
      requires forall k :: k in contents && contents[k].Flow? ==> contents[k].entry.key == k
      ensures Valid() && table == contents && foreign == contents
    {
      table := contents;
      foreign := contents;
      healthy, ready, natQualified := true, true, true;
    }

    /** Another party writes, or removes, an entry of its own. */
    method Outside(k: Key, c: Option<Cell>)
      requires Valid()
      requires c.None? ==> k in foreign
      requires c.Some? && c.value.Flow? ==> c.value.entry.key == k
      modifies this`table, this`foreign
      ensures Valid()
      ensures c.Some? ==> table == old(table)[k := c.value] && foreign == old(foreign)[k := c.value]
      ensures c.None? ==> table == old(table) - {k} && foreign == old(foreign) - {k}
    {
      if c.Some? {
        table, foreign := table[k := c.value], foreign[k := c.value];
      } else {
        table, foreign := table - {k}, foreign - {k};
      }
    }

    /** One native command.  Update and delete address the entry by key and flow ID. */
    method Call(op: Operation, e: Entry) returns (r: Outcome)
      requires Valid()
      modifies this`table
      ensures Valid() || e.key in foreign
      ensures table - {e.key} == old(table) - {e.key}
      ensures op.FlowAdd? && e.key !in old(table) ==> table == old(table) || table == old(table)[e.key := Flow(e.Bare())]
      ensures op.FlowUpdate? && table != old(table)
              ==> e.key in old(table) && old(table)[e.key] == Flow(e.Bare()) && table == old(table)[e.key := Flow(e)]
      ensures op.FlowDelete? ==> table == old(table) || table == old(table) - {e.key}
      ensures healthy ==> r.Done?
      ensures healthy && op.FlowAdd? && e.key !in old(table) ==> table == old(table)[e.key := Flow(e.Bare())]
      ensures healthy && op.FlowUpdate? && e.key in old(table) && old(table)[e.key] == Flow(e.Bare())
              ==> table == old(table)[e.key := Flow(e)]
      ensures healthy && op.FlowDelete? && e.key in old(table) && old(table)[e.key] == Flow(e)
              ==> table == old(table) - {e.key}
    {
      var effective: bool := *;
      r := *;
      if healthy {
        effective, r := true, Done;
      }
      if effective {
        match op
        case FlowAdd =>
          table := table[e.key := Flow(e.Bare())];
        case FlowUpdate =>
          if e.key in table && table[e.key] == Flow(e.Bare()) {
            table := table[e.key := Flow(e)];
          }
        case FlowDelete =>
          if e.key in table && table[e.key] == Flow(e) {
            table := table - {e.key};
          }
      }
      assert forall k :: k in table && k != e.key ==> k in old(table) && table[k] == old(table)[k] by {
        assert forall k :: k in table && k != e.key ==> k in table - {e.key};
      }
    }

    method Fetch(k: Key) returns (r: Lookup)
      requires Valid()
      ensures r.Found? ==> k in table && table[k] == Flow(r.entry)
      ensures r.Absent? ==> k !in table
      ensures healthy && r.Unreadable? ==> k in table && table[k].Alien?
    {
      var answered: bool := *;
      if !healthy && !answered {
        return Unreadable;
      }
      if k !in table {
        return Absent;
      }
      return if table[k].Flow? then Found(table[k].entry) else Unreadable;
    }

    /** FLOWADD of the bare identity, then FLOWUPDATE of the action. */
    method Insert(e: Entry) returns (r: Outcome)
      requires Valid() && e.key !in table
      modifies this`table
      ensures Valid()
      ensures table == old(table) || table == old(table)[e.key := Flow(e.Bare())] || table == old(table)[e.key := Flow(e)]
      ensures healthy && ready && (e.Translates() ==> natQualified) ==> r.Done? && table == old(table)[e.key := Flow(e)]
      ensures !ready || (e.Translates() && !natQualified) ==> r.Raised? && table == old(table)
    {
      if !ready || (e.Translates() && !natQualified) {
        return Raised;
      }
      :- Call(FlowAdd, e.Bare());
      if e != e.Bare() {
        :- Call(FlowUpdate, e);
      }
      return Done;
    }

    method Delete(k: Key) returns (r: Outcome)
      requires Valid() && k !in foreign
      modifies this`table
      ensures Valid()
      ensures table == old(table) || table == old(table) - {k}
      ensures healthy && (k in table ==> table[k].Flow?) ==> r.Done? && k !in table
    {
      var found := Fetch(k);
      match found
      case Unreadable => return Raised;
      case Absent => return Done;
      case Found(e) =>
        r := Call(FlowDelete, e);
    }
  }
}
