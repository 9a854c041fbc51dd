/** The kanban board and the metrics view: clients per status and the
    conversion rate (src/App.jsx, the kanban columns and the stats cards). */
module Metrics {
  import opened Seqs
  import opened Clients

  /** The statuses shown as kanban columns and pipeline bars; "Lost" is not among them. */
  const PipelineStatuses: seq<string> := ["Lead", "Contacted", "Demo Built", "Won"]

  /** Keeps the records in status `s`. */
  function HasStatus(s: string): Client -> bool {
    (c: Client) => c.status == s
  }

  /** Keeps the records whose status is one of `ss`. */
  function StatusIn(ss: seq<string>): Client -> bool {
    (c: Client) => c.status in ss
  }

  /** The cards of the kanban column for status `s`, in stored order. */
  function Board(clients: seq<Client>, s: string): (r: seq<Client>)
    ensures forall i :: 0 <= i < |r| ==> r[i] in clients && r[i].status == s
    ensures forall i :: 0 <= i < |clients| && clients[i].status == s ==> clients[i] in r
  {
    Filter(clients, HasStatus(s))
  }

  /** How many clients are in status `s`: never more than there are clients. */
  function CountStatus(clients: seq<Client>, s: string): (n: nat)
    ensures n <= |clients|
  {
    |Board(clients, s)|
  }

  /** A kanban column keeps stored order, and holds every copy of a client in
      its status and no copy of any other client. */
  lemma BoardKeepsOrder(clients: seq<Client>, s: string)
    ensures IsSubseq(Board(clients, s), clients)
    ensures forall c: Client :: multiset(Board(clients, s))[c] == if c.status == s then multiset(clients)[c] else 0
  {
    FilterIsSubseq(clients, HasStatus(s));
    forall c: Client
      ensures multiset(Board(clients, s))[c] == if c.status == s then multiset(clients)[c] else 0
    {
      FilterMultiplicity(clients, HasStatus(s), c);
    }
  }

  /** The clients in status `s`, counted one by one from the back of the list. */
  ghost function Tally(clients: seq<Client>, s: string): nat
    decreases |clients|
  {
    if |clients| == 0 then 0
    else Tally(clients[..|clients| - 1], s) + (if clients[|clients| - 1].status == s then 1 else 0)
  }

  /** A status count is the number of clients in that status. */
  lemma {:induction false} CountStatusIsTally(clients: seq<Client>, s: string)
    ensures CountStatus(clients, s) == Tally(clients, s)
    decreases |clients|
  {
    if |clients| > 0 {
      var front, last := clients[..|clients| - 1], clients[|clients| - 1];
      assert clients == front + [last];
      FilterAppend(front, [last], HasStatus(s));
      CountStatusIsTally(front, s);
    }
  }

  /** The counts of several statuses added up. */
  function SumCounts(clients: seq<Client>, ss: seq<string>): nat {
    if |ss| == 0 then 0 else CountStatus(clients, ss[0]) + SumCounts(clients, ss[1..])
  }

  /** `Math.round(part / whole * 100)` computed exactly: the nearest integer
      percentage, halves rounded up. */
  function RoundedPercent(part: nat, whole: nat): nat
    requires whole > 0
  {
    (200 * part + whole) / (2 * whole)
  }

  /** The conversion-rate card: the share of clients in status Won as a rounded
      percentage, and 0 when there are no clients. */
  function ConversionRate(clients: seq<Client>): (r: nat)
    ensures r <= 100
    ensures |clients| == 0 ==> r == 0
  {
    if |clients| == 0 then 0
    else
      var won := CountStatus(clients, "Won");
      PercentAtMostHundred(won, |clients|);
      RoundedPercent(won, |clients|)
  }

  /** A part of a whole is at most 100 percent of it. */
  lemma PercentAtMostHundred(part: nat, whole: nat)
    requires 0 < whole && part <= whole
    ensures RoundedPercent(part, whole) <= 100
  {
    assert 200 * part + whole < 2 * whole * 101;
    DivBelow(200 * part + whole, 2 * whole, 101);
  }

  /** A quotient is below any bound the dividend stays below in multiples. */
  lemma DivBelow(n: nat, d: nat, q: nat)
    requires d > 0 && n < d * q
    ensures n / d < q
  {
    assert n == d * (n / d) + n % d;
    if n / d >= q {
      MulMono(d, q, n / d);
    }
  }

  /** Multiplication by a positive number preserves order. */
  lemma MulMono(d: nat, a: nat, b: nat)
    requires a <= b
    ensures d * a <= d * b
  {
  }

  /** The quotient is the one multiple that brackets the dividend. */
  lemma DivExact(n: nat, d: nat, q: nat)
    requires d > 0 && d * q <= n < d * (q + 1)
    ensures n / d == q
  {
    RoundedBracket(n, d);
    if n / d < q {
      MulMono(d, n / d + 1, q);
    } else if n / d > q {
      MulMono(d, q + 1, n / d);
    }
  }

  /** Euclidean division brackets the dividend between consecutive multiples. */
  lemma RoundedBracket(n: nat, d: nat)
    requires d > 0
    ensures d * (n / d) <= n < d * (n / d + 1)
  {
    assert n == d * (n / d) + n % d;
  }

  /** The rounding is to the nearest integer with halves going up:
      r <= 100 * part / whole + 1/2 < r + 1. */
  lemma RoundedPercentIsNearest(part: nat, whole: nat)
    requires whole > 0
    ensures var r := RoundedPercent(part, whole);
      2 * whole * r <= 200 * part + whole < 2 * whole * (r + 1)
  {
    RoundedBracket(200 * part + whole, 2 * whole);
  }

  /** No Won client gives 0 percent; all clients Won gives 100 percent. */
  lemma ConversionRateExtremes(clients: seq<Client>)
    ensures CountStatus(clients, "Won") == 0 ==> ConversionRate(clients) == 0
    ensures |clients| > 0 && CountStatus(clients, "Won") == |clients| ==> ConversionRate(clients) == 100
  {
    var n := |clients|;
    if n > 0 {
      DivExact(n, 2 * n, 0);
      DivExact(201 * n, 2 * n, 100);
    }
  }

  /** Counting one more status adds that status's count. */
  lemma {:induction false} CountSplit(clients: seq<Client>, s: string, rest: seq<string>)
    requires s !in rest
    ensures |Filter(clients, StatusIn([s] + rest))| == CountStatus(clients, s) + |Filter(clients, StatusIn(rest))|
  {
    if |clients| > 0 {
      CountSplit(clients[1..], s, rest);
    }
  }

  /** Adding up the counts of distinct statuses counts each client at most once:
      the sum is the number of clients whose status is among them. */
  lemma {:induction false} SumCountsCountsOnce(clients: seq<Client>, ss: seq<string>)
    requires DistinctBy(ss, Itself)
    ensures SumCounts(clients, ss) == |Filter(clients, StatusIn(ss))|
  {
    if |ss| == 0 {
      FilterNoneMatch(clients);
    } else {
      SumCountsCountsOnce(clients, ss[1..]);
      assert ss == [ss[0]] + ss[1..];
      CountSplit(clients, ss[0], ss[1..]);
    }
  }

  /** No status is among none. */
  lemma {:induction false} FilterNoneMatch(clients: seq<Client>)
    ensures Filter(clients, StatusIn([])) == []
  {
    if |clients| > 0 {
      FilterNoneMatch(clients[1..]);
    }
  }

  /** The pipeline columns together with the Lost clients never hold more
      clients than there are, so the four pipeline counts alone sum to at most
      the total. */
  lemma PipelineWithinTotal(clients: seq<Client>)
    ensures SumCounts(clients, PipelineStatuses) + CountStatus(clients, "Lost") <= |clients|
    ensures SumCounts(clients, PipelineStatuses) <= |clients|
  {
    var all := PipelineStatuses + ["Lost"];
    StatusesDistinct();
    SumCountsCountsOnce(clients, all);
    SumCountsAppend(clients, PipelineStatuses, ["Lost"]);
    assert ["Lost"][1..] == [];
  }

  /** The four pipeline statuses and "Lost" are five different statuses. */
  lemma StatusesDistinct()
    ensures DistinctBy(PipelineStatuses + ["Lost"], Itself)
  {
  }

  /** Counts over a concatenation of status lists add up. */
  lemma {:induction false} SumCountsAppend(clients: seq<Client>, a: seq<string>, b: seq<string>)
    ensures SumCounts(clients, a + b) == SumCounts(clients, a) + SumCounts(clients, b)
  {
    if |a| == 0 {
      assert a + b == b;
    } else {
      assert (a + b)[1..] == a[1..] + b;
      SumCountsAppend(clients, a[1..], b);
    }
  }
}
