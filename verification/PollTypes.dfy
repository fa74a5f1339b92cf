/**
 * The poll items of libzmq as the poller, the reactor and the loop use them.
 * An item names a zmq socket when its socket pointer is not null and
 * otherwise a file descriptor; here that choice is the item's key.
 */
module PollTypes {

  datatype Key = Socket(handle: nat) | Descriptor(fd: int)

  /** The bits of an event mask. */
  datatype Flag = PollIn | PollOut | PollError | PollPri

  type Events = set<Flag>

  datatype PollItem = PollItem(key: Key, events: Events, revents: Events)

  /** has_input, has_error or has_output on the returned event flags. */
  predicate Ready(revents: Events) {
    PollIn in revents || PollError in revents || PollOut in revents
  }

  /** What one call of zmq_poll did: interrupted by a signal, failed, or
      reported the flags of the keys listed (all other keys got none). */
  datatype PollOutcome = Interrupted | Failed | Reported(flags: map<Key, Events>)

  function FlagsOf(flags: map<Key, Events>, k: Key): Events {
    if k in flags then flags[k] else {}
  }

  /** The effect of one zmq_poll on a table of monitored items. */
  function Polled(table: map<Key, PollItem>, outcome: PollOutcome): map<Key, PollItem> {
    match outcome
    case Reported(flags) => map k | k in table :: table[k].(revents := FlagsOf(flags, k))
    case _ => table
  }

  /** zmq_poll counts the items with flags; poll() returns whether there are any. */
  ghost predicate AnyReported(table: map<Key, PollItem>, outcome: PollOutcome) {
    outcome.Reported? && exists k | k in table :: FlagsOf(outcome.flags, k) != {}
  }

  /** A registered item with the handler to call for it. */
  datatype Entry = Entry(item: PollItem, handler: nat)

  predicate DistinctKeys(entries: seq<Entry>) {
    forall i, j | 0 <= i < j < |entries| :: entries[i].item.key != entries[j].item.key
  }

  function Keys(entries: seq<Entry>): (s: set<Key>)
    ensures forall k :: k in s <==> exists i | 0 <= i < |entries| :: entries[i].item.key == k
  {
    set i | 0 <= i < |entries| :: entries[i].item.key
  }

  /** The entries whose key is not in `gone`, in their order. */
  function Without(entries: seq<Entry>, gone: set<Key>): (r: seq<Entry>)
    ensures |r| <= |entries|
    ensures forall e :: e in r <==> e in entries && e.item.key !in gone
  {
    if entries == [] then []
    else if entries[0].item.key in gone then Without(entries[1..], gone)
    else [entries[0]] + Without(entries[1..], gone)
  }

  lemma FirstAndRest(entries: seq<Entry>)
    requires entries != []
    ensures Keys(entries) == {entries[0].item.key} + Keys(entries[1..])
    ensures DistinctKeys(entries) <==> entries[0].item.key !in Keys(entries[1..]) && DistinctKeys(entries[1..])
  {
    var rest := entries[1..];
    assert forall i | 0 < i < |entries| :: entries[i] == rest[i - 1];
    forall k | k in Keys(entries) ensures k in {entries[0].item.key} + Keys(rest) {
      var i :| 0 <= i < |entries| && entries[i].item.key == k;
      if i > 0 {
        assert rest[i - 1].item.key == k;
      }
    }
    forall k | k in Keys(rest) ensures k in Keys(entries) {
      var i :| 0 <= i < |rest| && rest[i].item.key == k;
      assert entries[i + 1].item.key == k;
    }
  }

  lemma {:induction false} WithoutKeepsDistinct(entries: seq<Entry>, gone: set<Key>)
    ensures Keys(Without(entries, gone)) == Keys(entries) - gone
    ensures DistinctKeys(entries) ==> DistinctKeys(Without(entries, gone))
  {
    if entries == [] {
    } else {
      WithoutKeepsDistinct(entries[1..], gone);
      FirstAndRest(entries);
      if entries[0].item.key !in gone {
        var w := Without(entries[1..], gone);
        assert ([entries[0]] + w)[1..] == w;
        FirstAndRest([entries[0]] + w);
      }
    }
  }

  lemma {:induction false} WithoutTwice(entries: seq<Entry>, a: set<Key>, b: set<Key>)
    ensures Without(Without(entries, a), b) == Without(entries, a + b)
  {
    if entries == [] {
    } else {
      WithoutTwice(entries[1..], a, b);
      var w := Without(entries[1..], a);
      if entries[0].item.key !in a {
        assert ([entries[0]] + w)[1..] == w;
      }
    }
  }

  lemma {:induction false} WithoutNothing(entries: seq<Entry>, gone: set<Key>)
    requires Keys(entries) !! gone
    ensures Without(entries, gone) == entries
  {
    if entries == [] {
    } else {
      FirstAndRest(entries);
      WithoutNothing(entries[1..], gone);
    }
  }

  /** The handlers of the entries with events, in the order of the list. */
  function ReadyHandlers(entries: seq<Entry>, table: map<Key, PollItem>): seq<(Key, nat)> {
    if entries == [] then []
    else
      var e := entries[0];
      (if e.item.key in table && Ready(table[e.item.key].revents) then [(e.item.key, e.handler)] else [])
      + ReadyHandlers(entries[1..], table)
  }

  /** After a poll that reports these flags the handlers of an item are ready
      exactly if the item is monitored and its flags have input, output or error. */
  lemma {:induction false} ReadyIff(entries: seq<Entry>, table: map<Key, PollItem>, flags: map<Key, Events>,
                                    key: Key, handler: nat)
    ensures (key, handler) in ReadyHandlers(entries, Polled(table, Reported(flags))) <==>
            && (exists e :: e in entries && e.item.key == key && e.handler == handler)
            && key in table && key in flags && (PollIn in flags[key] || PollOut in flags[key] || PollError in flags[key])
  {
    if entries != [] {
      ReadyIff(entries[1..], table, flags, key, handler);
      assert entries == [entries[0]] + entries[1..];
    }
  }

  lemma ReadySplits(entries: seq<Entry>, table: map<Key, PollItem>, p: nat)
    requires p < |entries| && entries[p].item.key in table
    ensures ReadyHandlers(entries[p..], table) ==
            (if Ready(table[entries[p].item.key].revents) then [(entries[p].item.key, entries[p].handler)] else [])
            + ReadyHandlers(entries[p + 1..], table)
  {
    assert entries[p..][0] == entries[p] && entries[p..][1..] == entries[p + 1..];
  }
}
