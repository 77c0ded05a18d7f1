/**
 The monitor behind load-linked and store-conditional: a table of reserved words, kept without
 gaps, and what its answers mean over a history of calls.
 */
module ExclusiveMonitor {

  // ---------- the table as a list ----------

  // The bits of cpus are distinct, so that the bit mask is the set of their numbers.
  datatype Entry = Entry(addr: nat, cpus: set<nat>)

  function WordOf(addr: nat): nat { addr - addr % 4 }

  // Two addresses are in one word exactly if they differ in the last two bits at most, and a word is
  // named by its first byte.
  lemma SameWordIff(a: nat, b: nat)
    ensures WordOf(a) == WordOf(b) <==> a / 4 == b / 4
    ensures WordOf(a) <= a < WordOf(a) + 4 && WordOf(WordOf(a)) == WordOf(a)
  {
  }

  // The place of a word in the table, or its end.
  function IndexOf(es: seq<Entry>, word: nat): (i: nat)
    ensures i <= |es| && (i < |es| ==> es[i].addr == word) && forall k | 0 <= k < i :: es[k].addr != word
  {
    if es == [] || es[0].addr == word then 0 else IndexOf(es[1..], word) + 1
  }

  // The CPUs that hold a reservation of the word.
  function Reserved(es: seq<Entry>, word: nat): set<nat> {
    var i := IndexOf(es, word);
    if i < |es| then es[i].cpus else {}
  }

  ghost predicate DistinctWords(es: seq<Entry>) { forall i, j | 0 <= i < j < |es| :: es[i].addr != es[j].addr }

  function MarkIn(es: seq<Entry>, cpu: nat, addr: nat): seq<Entry> {
    var i := IndexOf(es, WordOf(addr));
    if i < |es| then es[i := es[i].(cpus := es[i].cpus + {cpu})] else es + [Entry(WordOf(addr), {cpu})]
  }

  function Deleted(es: seq<Entry>, i: nat): seq<Entry>
    requires i < |es|
  {
    es[..i] + es[i + 1..]
  }

  function ClearIn(es: seq<Entry>, addr: nat): seq<Entry> {
    var i := IndexOf(es, WordOf(addr));
    if i < |es| then Deleted(es, i) else es
  }

  predicate Passes(es: seq<Entry>, cpu: nat, addr: nat) { cpu in Reserved(es, WordOf(addr)) }

  function TestIn(es: seq<Entry>, cpu: nat, addr: nat): seq<Entry> {
    if Passes(es, cpu, addr) then ClearIn(es, addr) else es
  }

  // ---------- the list as a map from words to sets of CPUs ----------

  lemma FoundAt(es: seq<Entry>, word: nat, i: nat)
    requires i <= |es| && (i < |es| ==> es[i].addr == word) && forall k | 0 <= k < i :: es[k].addr != word
    ensures IndexOf(es, word) == i
  {
  }

  lemma MarkReserves(es: seq<Entry>, cpu: nat, addr: nat, word: nat)
    requires DistinctWords(es)
    ensures var es' := MarkIn(es, cpu, addr);
      && DistinctWords(es')
      && Reserved(es', word) == if word == WordOf(addr) then Reserved(es, word) + {cpu} else Reserved(es, word)
  {
    var es' := MarkIn(es, cpu, addr);
    var i := IndexOf(es, word);
    if word == WordOf(addr) || i < |es| {
      FoundAt(es', word, i);
    } else {
      FoundAt(es', word, |es'|);
    }
  }

  // Deleting an entry leaves every other reservation as it is.
  lemma DeleteKeepsOthers(es: seq<Entry>, i: nat, word: nat)
    requires DistinctWords(es) && i < |es|
    ensures DistinctWords(Deleted(es, i))
    ensures Reserved(Deleted(es, i), word) == if word == es[i].addr then {} else Reserved(es, word)
  {
    var es' := Deleted(es, i);
    assert forall k | 0 <= k < |es'| :: es'[k] == es[if k < i then k else k + 1];
    var j := IndexOf(es, word);
    if word == es[i].addr || j == |es| {
      FoundAt(es', word, |es'|);
    } else {
      FoundAt(es', word, if j < i then j else j - 1);
    }
  }

  lemma ClearReserves(es: seq<Entry>, addr: nat, word: nat)
    requires DistinctWords(es)
    ensures DistinctWords(ClearIn(es, addr))
    ensures Reserved(ClearIn(es, addr), word) == if word == WordOf(addr) then {} else Reserved(es, word)
  {
    var i := IndexOf(es, WordOf(addr));
    if i < |es| {
      DeleteKeepsOthers(es, i, word);
    }
  }

  // ---------- histories ----------

  datatype Call = Mark(cpu: nat, addr: nat) | Test(cpu: nat, addr: nat) | Clear(cpu: nat, addr: nat)

  function After(h: seq<Call>): seq<Entry> {
    if h == [] then []
    else
      var es := After(h[..|h| - 1]);
      match h[|h| - 1]
      case Mark(cpu, addr) => MarkIn(es, cpu, addr)
      case Test(cpu, addr) => TestIn(es, cpu, addr)
      case Clear(_, addr) => ClearIn(es, addr)
  }

  // What the answers mean, without the table: call j ends the reservations of the word if it is a
  // clear of it or a successful test of it by any CPU; a CPU has a reservation if it marked the
  // word and nothing has ended the reservations since.
  ghost predicate Ends(h: seq<Call>, j: nat, word: nat)
    requires j < |h|
    decreases j, 1
  {
    WordOf(h[j].addr) == word && (h[j].Clear? || (h[j].Test? && HasReservation(h, j, h[j].cpu, word)))
  }

  ghost predicate HasReservation(h: seq<Call>, n: nat, cpu: nat, word: nat)
    requires n <= |h|
    decreases n, 0
  {
    exists k :: 0 <= k < n && MarkedAt(h, k, cpu, word) && forall j | k < j < n :: !Ends(h, j, word)
  }

  ghost predicate MarkedAt(h: seq<Call>, k: nat, cpu: nat, word: nat)
    requires k < |h|
  {
    h[k].Mark? && h[k].cpu == cpu && WordOf(h[k].addr) == word
  }

  // Whether a reservation exists after one more call.
  lemma OneCallMore(h: seq<Call>, n: nat, cpu: nat, word: nat)
    requires n < |h|
    ensures HasReservation(h, n + 1, cpu, word)
            <==> MarkedAt(h, n, cpu, word) || (HasReservation(h, n, cpu, word) && !Ends(h, n, word))
  {
    if HasReservation(h, n, cpu, word) && !Ends(h, n, word) {
      var k :| 0 <= k < n && MarkedAt(h, k, cpu, word) && forall j | k < j < n :: !Ends(h, j, word);
      assert forall j | k < j < n + 1 :: !Ends(h, j, word);
      assert HasReservation(h, n + 1, cpu, word);
    }
    if HasReservation(h, n + 1, cpu, word) && !MarkedAt(h, n, cpu, word) {
      var k :| 0 <= k < n + 1 && MarkedAt(h, k, cpu, word) && forall j | k < j < n + 1 :: !Ends(h, j, word);
      assert k < n && !Ends(h, n, word);
      assert HasReservation(h, n, cpu, word);
    }
  }

  lemma {:induction false} TableHoldsReservations(h: seq<Call>, n: nat, cpu: nat, word: nat)
    requires n <= |h|
    ensures DistinctWords(After(h[..n]))
    ensures cpu in Reserved(After(h[..n]), word) <==> HasReservation(h, n, cpu, word)
    decreases n
  {
    if n > 0 {
      var m := n - 1;
      assert h[..n][..m] == h[..m];
      var es, call := After(h[..m]), h[m];
      TableHoldsReservations(h, m, cpu, word);
      TableHoldsReservations(h, m, call.cpu, WordOf(call.addr));
      OneCallMore(h, m, cpu, word);
      match call
      case Mark(c, addr) => MarkReserves(es, c, addr, word);
      case Test(c, addr) => ClearReserves(es, addr, word);
      case Clear(_, addr) => ClearReserves(es, addr, word);
    }
  }

  // A store-conditional succeeds exactly if its CPU marked the same word and no CPU has succeeded
  // on it, and nobody has cleared it, since then; the words of the table are distinct.
  lemma TestIsExact(h: seq<Call>, cpu: nat, addr: nat)
    ensures Passes(After(h), cpu, addr) <==> HasReservation(h, |h|, cpu, WordOf(addr))
    ensures DistinctWords(After(h))
  {
    assert h[..|h|] == h;
    TableHoldsReservations(h, |h|, cpu, WordOf(addr));
  }

  // ---------- the size of the table ----------

  // The words that a call of a history has marked, and those of them that have a reservation.
  ghost function Marked(h: seq<Call>): set<nat> {
    set k | 0 <= k < |h| && h[k].Mark? :: WordOf(h[k].addr)
  }

  ghost function Live(h: seq<Call>): set<nat> {
    set word | word in Marked(h) && exists cpu :: HasReservation(h, |h|, cpu, word)
  }

  // No entry of the table is without a CPU.
  lemma {:induction false} EntriesAreHeld(h: seq<Call>)
    ensures forall e | e in After(h) :: e.cpus != {}
  {
    if h != [] {
      EntriesAreHeld(h[..|h| - 1]);
    }
  }

  ghost function Words(es: seq<Entry>): set<nat> { set e | e in es :: e.addr }

  lemma {:induction false} DistinctCount(es: seq<Entry>)
    requires DistinctWords(es)
    ensures |Words(es)| == |es|
  {
    if es != [] {
      var n := |es| - 1;
      DistinctCount(es[..n]);
      assert es == es[..n] + [es[n]];
      assert Words(es) == Words(es[..n]) + {es[n].addr} && es[n].addr !in Words(es[..n]);
    }
  }

  // The words of the table are the live ones.
  lemma TableIsLive(h: seq<Call>)
    ensures Words(After(h)) == Live(h) && |Live(h)| == |After(h)|
  {
    var es := After(h);
    TestIsExact(h, 0, 0);
    DistinctCount(es);
    assert h[..|h|] == h;
    forall word
      ensures word in Words(es) <==> word in Live(h)
    {
      if word in Words(es) {
        var i := IndexOf(es, word);
        assert i < |es|;
        EntriesAreHeld(h);
        assert es[i] in es;
        var cpu :| cpu in es[i].cpus;
        TableHoldsReservations(h, |h|, cpu, word);
        var k :| 0 <= k < |h| && MarkedAt(h, k, cpu, word);
        assert word in Marked(h);
      }
      if word in Live(h) {
        var cpu :| HasReservation(h, |h|, cpu, word);
        TableHoldsReservations(h, |h|, cpu, word);
        assert es[IndexOf(es, word)] in es;
      }
    }
  }

  // What MarkExclusive needs: the word is in the table or fits.
  ghost predicate MarkFits(es: seq<Entry>, addr: nat) {
    |es| < CAPACITY || IndexOf(es, WordOf(addr)) < |es|
  }

  // A mark is written past the table if and only if as many words as it has entries have a
  // reservation and the marked one is none of them.
  lemma MarkFitsIff(h: seq<Call>, addr: nat)
    ensures MarkFits(After(h), addr) <==> |Live(h)| < CAPACITY || WordOf(addr) in Live(h)
  {
    var es, word := After(h), WordOf(addr);
    TableIsLive(h);
    if IndexOf(es, word) < |es| {
      assert es[IndexOf(es, word)] in es;
    }
  }

  lemma {:induction false} SubsetSize(a: set<nat>, b: set<nat>)
    requires a <= b
    ensures |a| <= |b| && (|a| == |b| ==> a == b)
  {
    if a != {} {
      var x :| x in a;
      SubsetSize(a - {x}, b - {x});
    }
  }

  // As long as no more words are marked than the table has entries, marking one of them stays
  // inside the table.
  lemma TableSuffices(h: seq<Call>, words: set<nat>, addr: nat)
    requires forall k | 0 <= k < |h| && h[k].Mark? :: WordOf(h[k].addr) in words
    requires |words| <= CAPACITY && WordOf(addr) in words
    ensures MarkFits(After(h), addr)
  {
    MarkFitsIff(h, addr);
    SubsetSize(Live(h), words);
  }

  // ---------- the table in place ----------

  const CAPACITY: nat := 100

  class Monitor {
    const table: array<Entry>
    var count: nat

    ghost predicate Valid()
      reads this, table
    {
      table.Length == CAPACITY && count <= CAPACITY && DistinctWords(Entries())
    }

    ghost function Entries(): seq<Entry>
      requires count <= table.Length
      reads this, table
    {
      table[..count]
    }

    constructor ()
      ensures Valid() && fresh(table) && Entries() == []
    {
      table := new Entry[CAPACITY](i => Entry(0, {}));
      count := 0;
    }

    // The search that all three operations begin with.
    method Search(word: nat) returns (i: nat)
      requires Valid()
      ensures i == IndexOf(Entries(), word)
    {
      i := 0;
      while i < count && table[i].addr != word
        invariant i <= count && forall k | 0 <= k < i :: table[k].addr != word
      {
        i := i + 1;
      }
      FoundAt(Entries(), word, i);
    }

    // The source writes past its table when a word is marked that does not fit.
    method MarkExclusive(cpu: nat, addr: nat)
      requires Valid() && MarkFits(Entries(), addr)
      modifies this, table
      ensures Valid() && Entries() == MarkIn(old(Entries()), cpu, addr)
    {
      MarkReserves(Entries(), cpu, addr, 0);
      ghost var es := Entries();
      var i := Search(WordOf(addr));
      if i < count {
        table[i] := table[i].(cpus := table[i].cpus + {cpu});
        assert Entries() == es[i := table[i]];
      } else {
        table[count] := Entry(WordOf(addr), {cpu});
        count := count + 1;
      }
    }

    // delete_entry: the entries behind move up.
    method DeleteEntry(at: nat)
      requires Valid() && at < count
      modifies this, table
      ensures Valid() && Entries() == Deleted(old(Entries()), at)
    {
      DeleteKeepsOthers(Entries(), at, 0);
      ghost var es := Entries();
      var i := at;
      while i < count - 1
        invariant at <= i < count == |es| && table.Length == CAPACITY
        invariant forall k | 0 <= k < at :: table[k] == es[k]
        invariant forall k | at <= k < i :: table[k] == es[k + 1]
        invariant forall k | i <= k < count :: table[k] == es[k]
      {
        table[i] := table[i + 1];
        i := i + 1;
      }
      count := count - 1;
      assert Entries() == Deleted(es, at);
    }

    method TestExclusive(cpu: nat, addr: nat) returns (failed: bool)
      requires Valid()
      modifies this, table
      ensures Valid() && Entries() == TestIn(old(Entries()), cpu, addr)
      ensures failed <==> !Passes(old(Entries()), cpu, addr)
    {
      var i := Search(WordOf(addr));
      if i < count && cpu in table[i].cpus {
        DeleteEntry(i);
        return false;
      }
      return true;
    }

    method ClearExclusive(addr: nat)
      requires Valid()
      modifies this, table
      ensures Valid() && Entries() == ClearIn(old(Entries()), addr)
    {
      var i := Search(WordOf(addr));
      if i < count {
        DeleteEntry(i);
      }
    }
  }
}
