/** The search box: the clients shown are those with some value that contains
    the search term, compared case-insensitively (src/App.jsx, `filteredClients`). */
module Search {
  import opened Wrappers
  import opened Seqs
  import opened Text
  import opened Clients

  /** Some value of `c`, printed and lower-cased, includes the lower-cased `term`. */
  predicate Matches(c: Client, term: string) {
    exists k :: k in Keys(c) && Includes(Lower(Cell(c, k)), Lower(term))
  }

  /** Keeps the records that match `term`. */
  function MatchesTerm(term: string): Client -> bool {
    (c: Client) => Matches(c, term)
  }

  /** The clients listed for search term `term`, in their stored order. */
  function Search(clients: seq<Client>, term: string): (r: seq<Client>)
    ensures |r| <= |clients|
    ensures forall i :: 0 <= i < |r| ==> r[i] in clients && Matches(r[i], term)
    ensures forall i :: 0 <= i < |clients| && Matches(clients[i], term) ==> clients[i] in r
  {
    Filter(clients, MatchesTerm(term))
  }

  /** A record matches exactly when the lower-cased term occurs at some position
      of some lower-cased value. */
  lemma MatchesIffOccurs(c: Client, term: string)
    ensures Matches(c, term) <==>
      exists k, i :: k in Keys(c) && OccursAt(Lower(Cell(c, k)), Lower(term), i)
  {
    forall k | k in Keys(c)
      ensures Includes(Lower(Cell(c, k)), Lower(term)) <==> exists i :: OccursAt(Lower(Cell(c, k)), Lower(term), i)
    {
      IncludesIff(Lower(Cell(c, k)), Lower(term));
    }
  }

  /** The search result is an order-preserving subsequence that keeps every copy
      of a matching record and none of any other. */
  lemma SearchKeepsOrder(clients: seq<Client>, term: string)
    ensures IsSubseq(Search(clients, term), clients)
    ensures forall c: Client ::
      multiset(Search(clients, term))[c] == if Matches(c, term) then multiset(clients)[c] else 0
  {
    FilterIsSubseq(clients, MatchesTerm(term));
    forall c: Client
      ensures multiset(Search(clients, term))[c] == if Matches(c, term) then multiset(clients)[c] else 0
    {
      FilterMultiplicity(clients, MatchesTerm(term), c);
    }
  }

  /** An empty search term lists every client: each has an id, and every
      string includes the empty string. */
  lemma SearchEmptyTermKeepsAll(clients: seq<Client>)
    ensures Search(clients, "") == clients
  {
    forall i | 0 <= i < |clients|
      ensures Matches(clients[i], "")
    {
      assert "id" in Keys(clients[i]);
      IncludesEmpty(Lower(Cell(clients[i], "id")));
    }
    FilterKeepsAll(clients, MatchesTerm(""));
  }

  /** Terms that lower-case alike list the same clients. */
  lemma SearchIgnoresCase(clients: seq<Client>, term1: string, term2: string)
    requires Lower(term1) == Lower(term2)
    ensures Search(clients, term1) == Search(clients, term2)
  {
    FilterExtensional(clients, MatchesTerm(term1), MatchesTerm(term2));
  }

  /** A record with at least one log entry matches the term "object": its log
      list prints as `[object Object]`, and that text is searched too. */
  lemma LoggedClientMatchesObject(c: Client)
    requires c.logs.Some? && c.logs.value != []
    ensures Matches(c, "object")
  {
    var printed := Lower(Cell(c, "logs"));
    assert "logs" in Keys(c);
    assert Lower("object") == "object";
    assert printed[1..7] == "object";
    assert OccursAt(printed, "object", 1);
    IncludesIff(printed, "object");
  }

  /** A record none of whose values holds the first letter of the term does not match. */
  lemma FirstLetterAbsent(c: Client, term: string)
    requires Lower(term) != []
    requires forall k :: k in Keys(c) ==> Lower(term)[0] !in Lower(Cell(c, k))
    ensures !Matches(c, term)
  {
    forall k | k in Keys(c)
      ensures !Includes(Lower(Cell(c, k)), Lower(term))
    {
      MissingFirstCharExcludes(Lower(Cell(c, k)), Lower(term));
    }
  }

  /** Searching "won" over an Acme record in status Won and a Globex record in
      status Lead lists exactly the Acme record, matched on its status. */
  lemma SearchWonExample()
    ensures
      var acme := Client("1", "Won", "2024-01-01", Some([]), map["company" := "Acme"]);
      var globex := Client("2", "Lead", "2024-01-01", Some([]), map["company" := "Globex"]);
      Search([acme, globex], "won") == [acme]
  {
    var acme := Client("1", "Won", "2024-01-01", Some([]), map["company" := "Acme"]);
    var globex := Client("2", "Lead", "2024-01-01", Some([]), map["company" := "Globex"]);
    assert Lower("won") == "won";
    assert Lower(Cell(acme, "status")) == "won";
    assert Includes("won", "won");
    assert "status" in Keys(acme);
    assert Matches(acme, "won");
    forall k | k in Keys(globex)
      ensures 'w' !in Lower(Cell(globex, k))
    {
      assert k == "id" || k == "status" || k == "lastContact" || k == "logs" || k == "company";
    }
    FirstLetterAbsent(globex, "won");
    var p := MatchesTerm("won");
    assert [acme, globex][1..] == [globex];
    assert [globex][1..] == [];
    assert Filter([globex], p) == [];
  }
}
