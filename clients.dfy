/** The client search of the public `clients.list` procedure over its built-in
    list of two clients. */
module ClientsRouter {
  import opened Wrappers
  import opened Queries
  import opened Text

  datatype ClientItem = ClientItem(id: string, name: string)

  const AllClients: seq<ClientItem> := [ClientItem("c1", "Reef Co."), ClientItem("c2", "Blue Marina")]

  /** The optional input object and its optional `q`. */
  datatype ListInput = ListInput(q: Option<string>)

  /** `input?.q?.toLowerCase().trim()` */
  function NormalizedQuery(input: Option<ListInput>): (r: Option<string>)
    ensures r.Some? <==> input.Some? && input.value.q.Some?
    ensures r.Some? ==> r.value == Trim(ToLower(input.value.q.value))
  {
    if input.Some? && input.value.q.Some? then Some(Trim(ToLower(input.value.q.value))) else None
  }

  predicate NameMatches(q: string, c: ClientItem) {
    Includes(ToLower(c.name), q)
  }

  /** The search over any list of items: all of them when the normalised query
      is missing or empty, else those whose lower-cased name contains it. */
  function Search(all: seq<ClientItem>, input: Option<ListInput>): (items: seq<ClientItem>)
    ensures (input.None? || input.value.q.None?) ==> items == all
    ensures input.Some? && input.value.q.Some? &&
            (forall i :: 0 <= i < |input.value.q.value| ==> IsSpace(LowerChar(input.value.q.value[i]))) ==>
            items == all
    ensures forall c :: c in items <==>
      c in all && (NormalizedQuery(input).None? || NormalizedQuery(input).value == [] ||
                   NameMatches(NormalizedQuery(input).value, c))
    ensures |items| <= |all|
  {
    var q := NormalizedQuery(input);
    if q.Some? && q.value != [] then
      Filter(all, (c: ClientItem) => NameMatches(q.value, c))
    else
      assert q.Some? ==> (forall i :: 0 <= i < |ToLower(input.value.q.value)| ==> ToLower(input.value.q.value)[i] == LowerChar(input.value.q.value[i]));
      all
  }

  /** The search drops items but never reorders or alters them. */
  lemma SearchIsSublist(all: seq<ClientItem>, input: Option<ListInput>)
    ensures IsSublist(Search(all, input), all)
  {
    var q := NormalizedQuery(input);
    if q.Some? && q.value != [] {
      FilterIsSublist(all, (c: ClientItem) => NameMatches(q.value, c));
    } else {
      SublistRefl(all);
    }
  }

  lemma {:induction false} SublistRefl(s: seq<ClientItem>)
    ensures IsSublist(s, s)
  {
    if s != [] {
      SublistRefl(s[1..]);
    }
  }

  /** `list` */
  function List(input: Option<ListInput>): (items: seq<ClientItem>)
    ensures IsSublist(items, AllClients)
    ensures NormalizedQuery(input).None? || NormalizedQuery(input).value == [] ==> items == AllClients
    ensures NormalizedQuery(input).Some? && NormalizedQuery(input).value != [] ==>
      forall c :: c in items <==> c in AllClients && NameMatches(NormalizedQuery(input).value, c)
  {
    SearchIsSublist(AllClients, input);
    Search(AllClients, input)
  }
}
