/** The search box of the list views: which field the query is matched
    against, and the filtered list it produces. */
module Search {
  import opened Text
  import opened Records
  import opened ListEngine

  /** The field(s) a view searches: the admin view the username, the
      employees list the name, the HR and manager dashboards name or email. */
  datatype Field = Username | Name | NameOrEmail

  /** Whether a record survives the search box. A record whose searched
      field is empty never survives, not even an empty query. */
  predicate Keep(r: Record, f: Field, q: string) {
    match f
    case Username => Matches(r.username, q)
    case Name => Matches(r.name, q)
    case NameOrEmail => Matches(r.name, q) || Matches(r.email, q)
  }

  /** The searched field(s) hold some text. */
  predicate HasText(r: Record, f: Field) {
    match f
    case Username => Truthy(r.username)
    case Name => Truthy(r.name)
    case NameOrEmail => Truthy(r.name) || Truthy(r.email)
  }

  /** The search predicate as a value, so that every use names the same
      closure. */
  function KeepPred(f: Field, q: string): Record -> bool {
    r => Keep(r, f, q)
  }

  /** The filtered list a view shows for query `q`. */
  function SearchRecords(records: seq<Record>, f: Field, q: string): (r: seq<Record>)
    ensures forall x :: x in r <==> x in records && Keep(x, f, q)
    ensures IsSubsequence(r, records)
    ensures forall x :: multiset(r)[x] == if Keep(x, f, q) then multiset(records)[x] else 0
  {
    Filter(records, KeepPred(f, q))
  }

  /** An empty query keeps exactly the records whose searched field is
      non-empty. */
  lemma EmptyQuery(records: seq<Record>, f: Field)
    ensures forall x :: x in SearchRecords(records, f, "") <==> x in records && HasText(x, f)
    ensures (forall i :: 0 <= i < |records| ==> HasText(records[i], f)) ==> SearchRecords(records, f, "") == records
  {
    forall x: Record
      ensures Keep(x, f, "") <==> HasText(x, f)
    {
      MatchesEmptyQuery(x.username);
      MatchesEmptyQuery(x.name);
      MatchesEmptyQuery(x.email);
    }
    if forall i :: 0 <= i < |records| ==> HasText(records[i], f) {
      FilterKeepsAll(records, KeepPred(f, ""));
    }
  }

  /** Searching the search result again with the same query changes nothing. */
  lemma SearchIdempotent(records: seq<Record>, f: Field, q: string)
    ensures SearchRecords(SearchRecords(records, f, q), f, q) == SearchRecords(records, f, q)
  {
    FilterIdempotent(records, KeepPred(f, q));
  }

  /** Extending the query narrows the result, and the narrower result can be
      computed from the wider one. */
  lemma SearchNarrowing(records: seq<Record>, f: Field, q: string, more: string)
    ensures SearchRecords(SearchRecords(records, f, q), f, q + more) == SearchRecords(records, f, q + more)
  {
    forall x: Record | Keep(x, f, q + more)
      ensures Keep(x, f, q)
    {
      match f
      case Username => MatchesNarrowing(x.username, q, more);
      case Name => MatchesNarrowing(x.name, q, more);
      case NameOrEmail =>
        if Matches(x.name, q + more) {
          MatchesNarrowing(x.name, q, more);
        } else {
          MatchesNarrowing(x.email, q, more);
        }
    }
    FilterNarrowing(records, KeepPred(f, q), KeepPred(f, q + more));
  }

  /** The query's case does not matter. */
  lemma SearchIgnoresCase(records: seq<Record>, f: Field, q: string)
    ensures SearchRecords(records, f, q) == SearchRecords(records, f, LowerStr(q))
  {
    forall x: Record
      ensures Keep(x, f, q) == Keep(x, f, LowerStr(q))
    {
      MatchesIgnoresCase(x.username, q);
      MatchesIgnoresCase(x.name, q);
      MatchesIgnoresCase(x.email, q);
    }
    FilterSamePredicate(records, KeepPred(f, q), KeepPred(f, LowerStr(q)));
  }

  function UserNamed(u: string): Record {
    Record(u, "", "", "HR", "Active", "")
  }

  /** A field matches a query whose lower-cased form begins the field's. */
  lemma MatchesAtStart(field: string, query: string)
    requires Truthy(field) && IsPrefix(LowerStr(query), LowerStr(field))
    ensures Matches(field, query)
  {
  }

  lemma BobLacksAli()
    ensures !Matches("bob", "ali")
  {
    assert LowerStr("ali") == "ali";
    assert LowerStr("bob") == "bob";
    assert !Contains("bob", "ali") by {
      assert "bob"[..3][0] == 'b';
      assert !IsPrefix("ali", "bob");
      assert !Contains("ob", "ali") by {
        assert !IsPrefix("ali", "ob");
        assert !Contains("b", "ali") by {
          assert !Contains("", "ali");
        }
      }
    }
  }

  lemma {:induction false} ExampleMatches()
    ensures Matches("alice", "ali") && Matches("ALICE2", "ali") && !Matches("bob", "ali")
  {
    assert LowerStr("ali") == "ali";
    assert LowerStr("alice") == "alice";
    assert LowerStr("ALICE2") == "alice2";
    MatchesAtStart("alice", "ali");
    MatchesAtStart("ALICE2", "ali");
    BobLacksAli();
  }

  lemma {:induction false} SearchOfThree(a: Record, b: Record, c: Record, f: Field, q: string)
    requires Keep(a, f, q) && !Keep(b, f, q) && Keep(c, f, q)
    ensures SearchRecords([a, b, c], f, q) == [a, c]
  {
    FilterOfThree(a, b, c, KeepPred(f, q));
  }

  /** Usernames "alice", "bob", "ALICE2" searched for "ali" keep "alice" and
      "ALICE2", in that order. */
  lemma UsernameSearchExample()
    ensures SearchRecords([UserNamed("alice"), UserNamed("bob"), UserNamed("ALICE2")], Username, "ali")
         == [UserNamed("alice"), UserNamed("ALICE2")]
  {
    ExampleMatches();
    SearchOfThree(UserNamed("alice"), UserNamed("bob"), UserNamed("ALICE2"), Username, "ali");
  }
}
