/**
 * The poller: a vector of poll items and two hash indexes from a socket or a
 * descriptor to its position in the vector. Removal swaps the item with the
 * last one and re-indexes the item that moved.
 */
module PollerModel {
  import opened Wrappers
  import opened PollTypes

  /** The operations of a caller, for statements about whole sequences of them. */
  datatype Operation =
    | Add(item: PollItem)
    | Remove(key: Key)
    | CheckFor(key: Key, events: Events)
    | Poll(outcome: PollOutcome)

  /** What an operation means for the table of monitored items. A key that is
      already there is not added again: the class below shows why. */
  function Applied(table: map<Key, PollItem>, op: Operation): map<Key, PollItem> {
    match op
    case Add(item) => if item.key in table then table else table[item.key := item]
    case Remove(key) => table - {key}
    case CheckFor(key, events) => if key in table then table[key := table[key].(events := events)] else table
    case Poll(outcome) => Polled(table, outcome)
  }

  function AllApplied(table: map<Key, PollItem>, ops: seq<Operation>): map<Key, PollItem> {
    if ops == [] then table else Applied(AllApplied(table, ops[..|ops| - 1]), ops[|ops| - 1])
  }

  /** The two indexes read as one map from keys to positions. */
  ghost predicate Joint(index: map<nat, nat>, fdIndex: map<int, nat>, positions: map<Key, nat>) {
    && (forall k {:trigger positions[k]} | k in positions ::
          if k.Socket? then k.handle in index && index[k.handle] == positions[k]
          else k.fd in fdIndex && fdIndex[k.fd] == positions[k])
    && (forall s | s in index :: Socket(s) in positions)
    && (forall f | f in fdIndex :: Descriptor(f) in positions)
  }

  /** Positions and keys are in bijection, and the vector holds the table's items. */
  ghost predicate Consistent(items: seq<PollItem>, positions: map<Key, nat>, table: map<Key, PollItem>) {
    && positions.Keys == table.Keys
    && (forall k {:trigger positions[k]} | k in positions :: positions[k] < |items| && items[positions[k]] == table[k] && table[k].key == k)
    && (forall i | 0 <= i < |items| :: items[i].key in positions && positions[items[i].key] == i)
  }

  lemma JointErased(index: map<nat, nat>, fdIndex: map<int, nat>, positions: map<Key, nat>, k: Key)
    requires Joint(index, fdIndex, positions) && k in positions
    ensures k.Socket? ==> Joint(index - {k.handle}, fdIndex, positions - {k})
    ensures k.Descriptor? ==> Joint(index, fdIndex - {k.fd}, positions - {k})
  {
  }

  /** Appending an item and indexing it there. */
  lemma Appended(items: seq<PollItem>, positions: map<Key, nat>, table: map<Key, PollItem>, item: PollItem)
    requires Consistent(items, positions, table)
    ensures Consistent(items + [item], positions[item.key := |items|], table[item.key := item])
            <==> item.key !in table
  {
    if item.key in table {
      assert (items + [item])[positions[item.key]].key == item.key;
    }
  }

  lemma LastDropped(items: seq<PollItem>, positions: map<Key, nat>, table: map<Key, PollItem>, k: Key)
    requires Consistent(items, positions, table)
    requires k in positions && positions[k] == |items| - 1
    ensures Consistent(items[..|items| - 1], positions - {k}, table - {k})
  {
  }

  /** Exchanges an item with the last one and pops it off. */
  method SwapWithLastAndPop(items: seq<PollItem>, position: nat) returns (rest: seq<PollItem>)
    requires position < |items| - 1
    ensures |rest| == |items| - 1
    ensures forall i | 0 <= i < |rest| :: rest[i] == items[if i == position then |items| - 1 else i]
  {
    var swapped := items[position := items[|items| - 1]][|items| - 1 := items[position]];
    rest := swapped[..|swapped| - 1];
  }

  /** Deleting an item that is not the last one: the last one takes its place
      and is re-indexed. */
  lemma SwappedAndDropped(items: seq<PollItem>, rest: seq<PollItem>, positions: map<Key, nat>,
                          table: map<Key, PollItem>, k: Key)
    requires Consistent(items, positions, table)
    requires k in positions && |rest| == |items| - 1 && positions[k] < |rest|
    requires forall i | 0 <= i < |rest| :: rest[i] == items[if i == positions[k] then |items| - 1 else i]
    ensures rest[positions[k]].key in positions - {k}
    ensures Consistent(rest, (positions - {k})[rest[positions[k]].key := positions[k]], table - {k})
  {
    assert items[|items| - 1] == rest[positions[k]];
  }

  /** zmq_poll writes the returned flags into the vector, item by item. */
  function Refreshed(items: seq<PollItem>, flags: map<Key, Events>): seq<PollItem> {
    seq(|items|, i requires 0 <= i < |items| => items[i].(revents := FlagsOf(flags, items[i].key)))
  }

  lemma RefreshedIsPolled(items: seq<PollItem>, positions: map<Key, nat>, table: map<Key, PollItem>,
                          flags: map<Key, Events>)
    requires Consistent(items, positions, table)
    ensures Consistent(Refreshed(items, flags), positions, Polled(table, Reported(flags)))
    ensures AnyReported(table, Reported(flags)) <==>
            exists i :: 0 <= i < |items| && FlagsOf(flags, items[i].key) != {}
  {
    forall k | k in table ensures exists i :: 0 <= i < |items| && items[i].key == k {
      assert items[positions[k]].key == k;
    }
  }

  class Poller {
    var items: seq<PollItem>
    var index: map<nat, nat>
    var fdIndex: map<int, nat>

    /** The items by key: what the poller is to its users. */
    ghost var table: map<Key, PollItem>
    ghost var positions: map<Key, nat>

    ghost predicate Valid()
      reads this
    {
      Joint(index, fdIndex, positions) && Consistent(items, positions, table)
    }

    constructor ()
      ensures Valid() && table == map[]
    {
      items, index, fdIndex := [], map[], map[];
      table, positions := map[], map[];
    }

    /** The item goes to the end of the vector whatever its key; the indexes
        still describe the vector exactly when the key was absent. */
    method Add(item: PollItem)
      requires Valid()
      modifies this
      ensures items == old(items) + [item]
      ensures table == old(table)[item.key := item]
      ensures Valid() <==> item.key !in old(table)
    {
      Appended(items, positions, table, item);
      var position := |items|;
      items := items + [item];
      if item.key.Descriptor? {
        fdIndex := fdIndex[item.key.fd := position];
      } else {
        index := index[item.key.handle := position];
      }
      positions := positions[item.key := position];
      table := table[item.key := item];
    }

    method Has(item: PollItem) returns (found: bool)
      requires Valid()
      ensures found <==> item.key in table
    {
      if item.key.Socket? {
        return item.key.handle in index;
      }
      return item.key.fd in fdIndex;
    }

    /** Throws exactly when the item at the position is not in its index. */
    method Reindex(position: nat) returns (r: Outcome)
      requires position < |items|
      requires Joint(index, fdIndex, positions)
      modifies this`index, this`fdIndex, this`positions
      ensures r.Pass? <==> items[position].key in old(positions)
      ensures Joint(index, fdIndex, positions)
      ensures r.Pass? ==> positions == old(positions)[items[position].key := position]
    {
      if items[position].key.Socket? {
        if items[position].key.handle !in index {
          return Fail("unable to reindex socket in poller");
        }
        index := index[items[position].key.handle := position];
      } else {
        if items[position].key.fd !in fdIndex {
          return Fail("unable to reindex file descriptor in poller");
        }
        fdIndex := fdIndex[items[position].key.fd := position];
      }
      positions := positions[items[position].key := position];
      return Pass;
    }

    /** Takes the item of a key out of the vector: pops it when it is the last
        one, and otherwise first exchanges it with the last one. */
    method Detach(position: nat, ghost k: Key) returns (moved: bool)
      requires Consistent(items, positions, table)
      requires k in positions && positions[k] == position
      modifies this`items, this`positions, this`table
      ensures positions == old(positions) - {k} && table == old(table) - {k}
      ensures !moved ==> Consistent(items, positions, table)
      ensures moved ==>
                && position < |items| && items[position].key in positions
                && Consistent(items, positions[items[position].key := position], table)
    {
      if |items| - 1 == position {
        LastDropped(items, positions, table, k);
        items := items[..|items| - 1];
        moved := false;
      } else {
        var rest := SwapWithLastAndPop(items, position);
        SwappedAndDropped(items, rest, positions, table, k);
        items := rest;
        moved := true;
      }
      positions, table := positions - {k}, table - {k};
    }

    /** Removal never throws, deletes exactly one key, and leaves the other
        items alone although one of them may have moved. */
    method RemoveDescriptor(descriptor: int) returns (r: Outcome)
      requires Valid()
      modifies this
      ensures r.Pass? && Valid()
      ensures table == old(table) - {Descriptor(descriptor)}
    {
      if descriptor !in fdIndex {
        assert table == table - {Descriptor(descriptor)};
        return Pass;
      }
      JointErased(index, fdIndex, positions, Descriptor(descriptor));
      var position := fdIndex[descriptor];
      var moved := Detach(position, Descriptor(descriptor));
      fdIndex := fdIndex - {descriptor};
      if !moved {
        return Pass;
      }
      r := Reindex(position);
    }

    method RemoveSocket(socket: nat) returns (r: Outcome)
      requires Valid()
      modifies this
      ensures r.Pass? && Valid()
      ensures table == old(table) - {Socket(socket)}
    {
      if socket !in index {
        assert table == table - {Socket(socket)};
        return Pass;
      }
      JointErased(index, fdIndex, positions, Socket(socket));
      var position := index[socket];
      var moved := Detach(position, Socket(socket));
      index := index - {socket};
      if !moved {
        return Pass;
      }
      r := Reindex(position);
    }

    method Remove(key: Key) returns (r: Outcome)
      requires Valid()
      modifies this
      ensures r.Pass? && Valid()
      ensures table == old(table) - {key}
    {
      match key
      case Socket(s) => r := RemoveSocket(s);
      case Descriptor(f) => r := RemoveDescriptor(f);
    }

    /** Throws exactly when the key is absent; otherwise changes the monitored
        flags of that key and of no other. */
    method CheckFor(key: Key, events: Events) returns (r: Outcome)
      requires Valid()
      modifies this`items, this`table
      ensures Valid()
      ensures r.Pass? <==> key in old(table)
      ensures table == if r.Pass? then old(table)[key := old(table)[key].(events := events)] else old(table)
    {
      var position;
      match key {
        case Descriptor(fd) =>
          if fd !in fdIndex {
            return Fail("this standard socket is not represented within this poller");
          }
          position := fdIndex[fd];
        case Socket(s) =>
          if s !in index {
            return Fail("this socket is not represented within this poller");
          }
          position := index[s];
      }
      assert position == positions[key];
      items := items[position := items[position].(events := events)];
      table := table[key := table[key].(events := events)];
      return Pass;
    }

    /** The event flags of a key; throws exactly when the key is absent. */
    method EventsOf(key: Key) returns (r: Result<Events>)
      requires Valid()
      ensures r.Success? <==> key in table
      ensures r.Success? ==> r.value == table[key].revents
    {
      match key {
        case Descriptor(fd) =>
          if fd !in fdIndex {
            return Failure("this standard socket is not represented within this poller");
          }
          return Success(items[fdIndex[fd]].revents);
        case Socket(s) =>
          if s !in index {
            return Failure("this socket is not represented within this poller");
          }
          return Success(items[index[s]].revents);
      }
    }

    /** One zmq_poll, whose answer is `outcome`. */
    method Poll(outcome: PollOutcome) returns (r: Result<bool>)
      requires Valid()
      modifies this`items, this`table
      ensures Valid()
      ensures table == Polled(old(table), outcome)
      ensures r.Failure? <==> outcome.Failed?
      ensures r.Success? ==> (r.value <==> AnyReported(old(table), outcome))
    {
      match outcome
      case Interrupted => return Success(false);
      case Failed => return Failure("zmq internal exception");
      case Reported(flags) =>
        var any := exists i :: 0 <= i < |items| && FlagsOf(flags, items[i].key) != {};
        RefreshedIsPolled(items, positions, table, flags);
        items := Refreshed(items, flags);
        table := Polled(table, outcome);
        return Success(any);
    }

    /** Whatever sequence of operations a user performs, guarding additions by
        has(), the poller is the finite map the sequence describes. */
    method Perform(ops: seq<Operation>)
      requires Valid()
      modifies this
      ensures Valid()
      ensures table == AllApplied(old(table), ops)
    {
      for n := 0 to |ops|
        invariant Valid()
        invariant table == AllApplied(old(table), ops[..n])
      {
        assert ops[..n + 1][..n] == ops[..n];
        match ops[n] {
          case Add(item) =>
            var found := Has(item);
            if !found {
              Add(item);
            }
          case Remove(key) =>
            var _ := Remove(key);
          case CheckFor(key, events) =>
            var _ := CheckFor(key, events);
          case Poll(outcome) =>
            var _ := Poll(outcome);
        }
      }
      assert ops[..|ops|] == ops;
    }
  }
}
