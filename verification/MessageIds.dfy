/** Message ids of pings and close frames, over any number of calls. */
module MessageIds {
  import opened Bytes
  import opened FrameSpec
  import opened SocketSpec

  const PERIOD: nat := 10000000

  /** The counter after `calls` calls on a new socket. */
  function Counter(calls: nat): nat {
    if calls == 0 then 0 else NextId(Counter(calls - 1)).1
  }

  /** The id the `call`-th call returns, counting from one. */
  function Id(call: nat): nat
    requires call >= 1
  {
    NextId(Counter(call - 1)).0
  }

  lemma {:induction false} CounterCycles(calls: nat)
    ensures Counter(calls) == calls % PERIOD
  {
    if calls > 0 {
      CounterCycles(calls - 1);
      CycleStep(calls - 1);
    }
  }

  lemma CycleStep(n: nat)
    ensures (n + 1) % PERIOD == if n % PERIOD == PERIOD - 1 then 0 else n % PERIOD + 1
  {
  }

  /** Call k returns ((k - 1) mod 10000000) + 1. */
  lemma IdsCycle(call: nat)
    requires call >= 1
    ensures Id(call) == (call - 1) % PERIOD + 1
  {
    CounterCycles(call - 1);
  }

  /** Any 10000000 consecutive calls return different ids. */
  lemma IdsDistinct(a: nat, b: nat)
    requires 1 <= a < b < a + PERIOD
    ensures Id(a) != Id(b)
  {
    IdsCycle(a);
    IdsCycle(b);
  }

  /** Reads decimal digits back. */
  function Value(digits: Bytes): int {
    if digits == [] then 0 else 10 * Value(digits[..|digits| - 1]) + digits[|digits| - 1] - 48
  }

  lemma {:induction false} DecimalReadsBack(n: nat)
    ensures Value(Decimal(n)) == n
  {
    if n >= 10 {
      DecimalReadsBack(n / 10);
      assert Decimal(n)[..|Decimal(n)| - 1] == Decimal(n / 10);
    } else {
      assert Value([48 + n]) == 10 * Value([]) + n;
    }
  }

  /**
    The text of every id fits the 16-octet buffer with its terminator and the 125
    octets of a control frame (section 5.5 of RFC 6455), and tells the id.
  */
  lemma IdTextFits(call: nat, mask: Mask)
    requires call >= 1
    ensures var text := Decimal(Id(call));
      && |text| <= 8 && |text| + 1 <= 16 && |text| <= 125 && Value(text) == Id(call)
      && |Encode(PING, Some(mask), text)| == 6 + |text|
  {
    IdsCycle(call);
    DecimalShort(Id(call));
    DecimalReadsBack(Id(call));
    ShortPing(mask, Decimal(Id(call)));
    hide *;
  }

  lemma ShortPing(mask: Mask, text: Bytes)
    requires |text| < 126
    ensures |Encode(PING, Some(mask), text)| == 6 + |text|
  {
    hide Decimal;
  }
}
