/**
 `handle_data_pkt` of srtp/srtp_impl.cpp: a packet with the awaited number goes to the fifo, every
 other packet is inserted into the connection's inbox, which is kept in order of the numbers.
 */
module Inbox {
  import opened Packets

  type u32 = x: int | 0 <= x < 0x1_0000_0000

  /** A data message; `id` stands for its contents. */
  datatype Message = Message(number: u16, len: u16, id: int)

  /** The parts of Conn_t that the function uses. */
  datatype State = State(awaited: u32, fifo: seq<Message>, inbox: seq<Message>)

  /** The position before the first message with a larger number. */
  function Position(inbox: seq<Message>, number: u16): (k: nat)
    ensures k <= |inbox|
    ensures forall i :: 0 <= i < k ==> inbox[i].number <= number
    ensures k < |inbox| ==> inbox[k].number > number
  {
    if inbox == [] || inbox[0].number > number then 0 else 1 + Position(inbox[1..], number)
  }

  function Insert(inbox: seq<Message>, m: Message): seq<Message> {
    var k := Position(inbox, m.number);
    inbox[..k] + [m] + inbox[k..]
  }

  function Arrive(s: State, m: Message): State {
    if s.awaited == m.number
    then s.(fifo := s.fifo + [m], awaited := (s.awaited + 1) % 0x1_0000_0000)
    else s.(inbox := Insert(s.inbox, m))
  }

  function Arrivals(awaited: u32, trace: seq<Message>): State {
    if trace == [] then State(awaited, [], [])
    else Arrive(Arrivals(awaited, trace[..|trace| - 1]), trace[|trace| - 1])
  }

  /** The imperative form: a scan for the position, then an insertion in place. */
  class Connection {
    var awaited: u32
    var fifo: seq<Message>
    var inbox: seq<Message>

    ghost function Vars(): State
      reads this
    {
      State(awaited, fifo, inbox)
    }

    constructor (awaited: u32)
      ensures Vars() == Arrivals(awaited, [])
    {
      this.awaited := awaited;
      fifo, inbox := [], [];
    }

    method HandleDataPkt(m: Message)
      modifies this
      ensures Vars() == Arrive(old(Vars()), m)
    {
      if awaited == m.number {
        fifo := fifo + [m];
        awaited := (awaited + 1) % 0x1_0000_0000;
      } else {
        var pos := |inbox|;
        var it := 0;
        while it < |inbox|
          invariant 0 <= it <= |inbox| && pos == |inbox|
          invariant Position(inbox, m.number) == it + Position(inbox[it..], m.number)
        {
          if inbox[it].number > m.number {
            pos := it;
            break;
          }
          assert inbox[it..][1..] == inbox[it + 1..];
          it := it + 1;
        }
        inbox := inbox[..pos] + [m] + inbox[pos..];
      }
    }
  }

  // ---- what a run leaves in the inbox ----

  /** The messages that were not delivered on arrival, in order of arrival. */
  function Undelivered(awaited: u32, trace: seq<Message>): seq<Message> {
    if trace == [] then []
    else
      var init, m := trace[..|trace| - 1], trace[|trace| - 1];
      Undelivered(awaited, init) + if Arrivals(awaited, init).awaited == m.number then [] else [m]
  }

  ghost predicate Sorted(s: seq<Message>) {
    forall i, j :: 0 <= i < j < |s| ==> s[i].number <= s[j].number
  }

  /** The messages with a given number, in order. */
  function Select(s: seq<Message>, number: u16): seq<Message> {
    if s == [] then []
    else (if s[0].number == number then [s[0]] else []) + Select(s[1..], number)
  }

  /** s is t sorted stably by number. */
  ghost predicate IsStableSort(s: seq<Message>, t: seq<Message>) {
    && Sorted(s)
    && multiset(s) == multiset(t)
    && forall n: u16 :: Select(s, n) == Select(t, n)
  }

  lemma {:induction false} SelectJoin(s: seq<Message>, t: seq<Message>, n: u16)
    ensures Select(s + t, n) == Select(s, n) + Select(t, n)
  {
    if s == [] {
      assert s + t == t;
    } else {
      var head := if s[0].number == n then [s[0]] else [];
      assert (s + t)[0] == s[0] && (s + t)[1..] == s[1..] + t;
      SelectJoin(s[1..], t, n);
      assert head + (Select(s[1..], n) + Select(t, n)) == head + Select(s[1..], n) + Select(t, n);
    }
  }

  lemma {:induction false} SelectNone(s: seq<Message>, n: u16)
    requires forall i :: 0 <= i < |s| ==> s[i].number != n
    ensures Select(s, n) == []
  {
    if s != [] {
      SelectNone(s[1..], n);
    }
  }

  lemma InsertSorted(s: seq<Message>, m: Message)
    requires Sorted(s)
    ensures Sorted(Insert(s, m))
  {
  }

  /** A message may move past messages with other numbers, seen through any one number. */
  lemma SelectMoves(a: seq<Message>, m: Message, b: seq<Message>, n: u16)
    requires forall i :: 0 <= i < |b| ==> b[i].number != m.number
    ensures Select(a + [m] + b, n) == Select(a + b + [m], n)
  {
    SelectJoin(a + [m], b, n);
    SelectJoin(a, [m], n);
    SelectJoin(a + b, [m], n);
    SelectJoin(a, b, n);
    if n == m.number {
      SelectNone(b, n);
    } else {
      SelectNone([m], n);
    }
  }

  lemma InsertSelects(s: seq<Message>, m: Message, n: u16)
    requires Sorted(s)
    ensures Select(Insert(s, m), n) == Select(s + [m], n)
  {
    var k := Position(s, m.number);
    SelectMoves(s[..k], m, s[k..], n);
    assert s == s[..k] + s[k..];
  }

  lemma InsertMultiset(s: seq<Message>, m: Message)
    ensures multiset(Insert(s, m)) == multiset(s) + multiset{m}
  {
    var k := Position(s, m.number);
    assert s == s[..k] + s[k..];
  }

  /**
   After any run from any initial number, the inbox is the stable sort of exactly the messages not
   delivered on arrival: nothing is lost or delivered later, equal numbers keep their order.
   */
  lemma {:induction false} InboxIsStableSort(awaited: u32, trace: seq<Message>)
    ensures IsStableSort(Arrivals(awaited, trace).inbox, Undelivered(awaited, trace))
  {
    if trace == [] {
    } else {
      var init, m := trace[..|trace| - 1], trace[|trace| - 1];
      var s, u := Arrivals(awaited, init), Undelivered(awaited, init);
      InboxIsStableSort(awaited, init);
      if s.awaited != m.number {
        InsertStable(s.inbox, u, m);
      } else {
        assert u + [] == u;
      }
    }
  }

  lemma InsertStable(s: seq<Message>, t: seq<Message>, m: Message)
    requires IsStableSort(s, t)
    ensures IsStableSort(Insert(s, m), t + [m])
  {
    InsertSorted(s, m);
    InsertMultiset(s, m);
    forall n: u16 ensures Select(Insert(s, m), n) == Select(t + [m], n) {
      InsertSelects(s, m, n);
      SelectJoin(s, [m], n);
      SelectJoin(t, [m], n);
    }
  }

  /** Being the stable sort of a sequence determines the inbox completely. */
  lemma {:induction false} StableSortUnique(s: seq<Message>, s': seq<Message>)
    requires Sorted(s) && Sorted(s') && |s| == |s'|
    requires forall n: u16 :: Select(s, n) == Select(s', n)
    ensures s == s'
  {
    if s != [] {
      var n := if s[0].number <= s'[0].number then s[0].number else s'[0].number;
      SameFirst(s, s', n);
      forall k: u16 ensures Select(s[1..], k) == Select(s'[1..], k) {
        SelectRest(s, k);
        SelectRest(s', k);
      }
      StableSortUnique(s[1..], s'[1..]);
    }
  }

  lemma SelectRest(s: seq<Message>, n: u16)
    requires s != []
    ensures s[0].number == n ==> Select(s, n) == [s[0]] + Select(s[1..], n)
    ensures s[0].number == n ==> Select(s[1..], n) == Select(s, n)[1..]
    ensures s[0].number != n ==> Select(s[1..], n) == Select(s, n)
  {
  }

  lemma SameFirst(s: seq<Message>, s': seq<Message>, n: u16)
    requires s != [] && s' != [] && Sorted(s) && Sorted(s')
    requires n <= s[0].number && n <= s'[0].number && (n == s[0].number || n == s'[0].number)
    requires Select(s, n) == Select(s', n)
    ensures s[0] == s'[0]
  {
    SelectRest(s, n);
    SelectRest(s', n);
    if s[0].number != n {
      SelectNone(s, n);
    } else if s'[0].number != n {
      SelectNone(s', n);
    } else {
      assert Select(s, n)[0] == s[0] && Select(s', n)[0] == s'[0];
    }
  }

  // ---- what a run delivers ----

  /** The fifo holds the numbers start, start + 1, ..., all below 2^16, and the counter is next. */
  ghost predicate ConsecutiveFrom(start: u32, s: State) {
    && s.awaited == start + |s.fifo|
    && (forall i :: 0 <= i < |s.fifo| ==> s.fifo[i].number == start + i)
    && (s.fifo == [] || start + |s.fifo| <= 0x1_0000)
  }

  lemma ArriveConsecutive(start: u32, s: State, m: Message)
    requires ConsecutiveFrom(start, s)
    ensures ConsecutiveFrom(start, Arrive(s, m))
  {
  }

  /**
   Over any run the delivered numbers are awaited, awaited + 1, ... without gaps or repetitions, and
   none lies beyond 65535: the 32-bit counter leaves the range of the 16-bit header field for good.
   */
  lemma {:induction false} DeliveredConsecutive(awaited: u32, trace: seq<Message>)
    ensures ConsecutiveFrom(awaited, Arrivals(awaited, trace))
  {
    if trace != [] {
      var init, m := trace[..|trace| - 1], trace[|trace| - 1];
      DeliveredConsecutive(awaited, init);
      ArriveConsecutive(awaited, Arrivals(awaited, init), m);
    }
  }

  lemma ArriveConserves(s: State, m: Message)
    ensures multiset(Arrive(s, m).fifo) + multiset(Arrive(s, m).inbox)
            == multiset(s.fifo) + multiset(s.inbox) + multiset{m}
  {
    InsertMultiset(s.inbox, m);
  }

  /** Every message that has arrived is either in the fifo or in the inbox, once per arrival. */
  lemma {:induction false} NothingLost(awaited: u32, trace: seq<Message>)
    ensures multiset(Arrivals(awaited, trace).fifo) + multiset(Arrivals(awaited, trace).inbox) == multiset(trace)
  {
    if trace != [] {
      var init, m := trace[..|trace| - 1], trace[|trace| - 1];
      NothingLost(awaited, init);
      ArriveConserves(Arrivals(awaited, init), m);
      assert trace == init + [m];
    }
  }

  /** Numbers that are delivered at most once, at most 2^16 of them, and none after a full pass. */
  lemma AtMostOnce(awaited: u32, trace: seq<Message>)
    ensures var f := Arrivals(awaited, trace).fifo;
            && |f| <= 0x1_0000
            && (forall i, j :: 0 <= i < j < |f| ==> f[i].number != f[j].number)
    ensures awaited > 0xFFFF ==> Arrivals(awaited, trace).fifo == []
  {
    DeliveredConsecutive(awaited, trace);
  }
}
