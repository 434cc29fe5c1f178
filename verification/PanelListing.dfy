/** Reading every client of the panel page by page (client.py, XUISession.list_clients_all). */
module PanelListing {
  import opened Prelude

  /** `id` may be absent, a text or a number. */
  datatype Id = NoId | TextId(text: string) | NumberId(number: int)

  datatype Client = Client(email: string, id: Id, data: int)

  /** One answer of the panel; `total` is absent when the panel does not report it. */
  datatype Fetch = Page(items: seq<Client>, total: Option<int>) | Raised

  datatype Key = Text(text: string) | Number(number: int) | Identity(index: nat)

  datatype Result = Listed(clients: seq<Client>) | Incomplete | RequestFailed

  // ---------------------------------------------------------------- what was served

  function ItemsOf(f: Fetch): seq<Client> {
    if f.Page? then f.items else []
  }

  /** Everything served on pages 1 to n. */
  function Served(pages: nat -> Fetch, n: nat): seq<Client> {
    if n == 0 then [] else Served(pages, n - 1) + ItemsOf(pages(n))
  }

  /** The total that page n reports, or what has been served if it reports none. */
  function TotalAt(pages: nat -> Fetch, n: nat): int {
    if pages(n).Page? && pages(n).total.Some? then pages(n).total.value else |Served(pages, n)|
  }

  /** The loop does not go beyond page n. */
  predicate StopsAt(pages: nat -> Fetch, n: nat) {
    pages(n).Raised? || pages(n).items == [] || |Served(pages, n)| >= TotalAt(pages, n)
  }

  /** Page n is the last one requested. */
  ghost predicate LastPage(pages: nat -> Fetch, n: nat) {
    n >= 1 && StopsAt(pages, n) && forall m: nat | 1 <= m < n :: !StopsAt(pages, m)
  }

  lemma LastPageUnique(pages: nat -> Fetch, n: nat, m: nat)
    requires LastPage(pages, n) && LastPage(pages, m)
    ensures n == m
  {
  }

  lemma OnlyLastPage(pages: nat -> Fetch, n: nat)
    requires LastPage(pages, n)
    ensures forall m: nat | LastPage(pages, m) :: m == n
  {
    forall m: nat | LastPage(pages, m) ensures m == n {
      LastPageUnique(pages, n, m);
    }
  }

  // ---------------------------------------------------------------- one entry per key

  /** Email, else id, else the identity of the object; empty ones and zero do not count. */
  function KeyAt(items: seq<Client>, i: nat): Key
    requires i < |items|
  {
    var c := items[i];
    if c.email != "" then Text(c.email)
    else match c.id
      case TextId(t) => if t != "" then Text(t) else Identity(i)
      case NumberId(n) => if n != 0 then Number(n) else Identity(i)
      case NoId => Identity(i)
  }

  /** The dictionary: an entry keeps its place and takes the last value. */
  datatype Entry = Entry(key: Key, client: Client)

  function IndexOf(entries: seq<Entry>, key: Key): (i: nat)
    ensures i <= |entries| && (i < |entries| ==> entries[i].key == key)
    ensures forall j | 0 <= j < i :: entries[j].key != key
  {
    if entries == [] then 0 else if entries[0].key == key then 0 else 1 + IndexOf(entries[1..], key)
  }

  function Put(entries: seq<Entry>, e: Entry): seq<Entry> {
    var i := IndexOf(entries, e.key);
    if i < |entries| then entries[i := e] else entries + [e]
  }

  function Deduped(items: seq<Client>): seq<Entry> {
    if items == [] then [] else
      var n := |items| - 1;
      Put(Deduped(items[..n]), Entry(KeyAt(items, n), items[n]))
  }

  function Clients(entries: seq<Entry>): (r: seq<Client>)
    ensures |r| == |entries|
  {
    seq(|entries|, i requires 0 <= i < |entries| => entries[i].client)
  }

  ghost predicate DistinctKeys(entries: seq<Entry>) {
    forall i, j | 0 <= i < j < |entries| :: entries[i].key != entries[j].key
  }

  /** Item i is the last one served under its key. */
  ghost predicate LastOfKey(items: seq<Client>, i: nat)
    requires i < |items|
  {
    forall j | i < j < |items| :: KeyAt(items, j) != KeyAt(items, i)
  }

  function EntryAt(items: seq<Client>, i: nat): Entry
    requires i < |items|
  {
    Entry(KeyAt(items, i), items[i])
  }

  ghost predicate FromLast(items: seq<Client>, e: Entry) {
    exists i | 0 <= i < |items| :: LastOfKey(items, i) && e == EntryAt(items, i)
  }

  lemma PutDistinct(entries: seq<Entry>, e: Entry)
    requires DistinctKeys(entries)
    ensures DistinctKeys(Put(entries, e))
  {
  }

  lemma StillLast(items: seq<Client>, c: Client, e: Entry)
    requires FromLast(items, e) && e.key != KeyAt(items + [c], |items|)
    ensures FromLast(items + [c], e)
  {
    var i :| 0 <= i < |items| && LastOfKey(items, i) && e == EntryAt(items, i);
    var all := items + [c];
    assert EntryAt(all, i) == e;
    forall j | i < j < |all| ensures KeyAt(all, j) != KeyAt(all, i) {
      if j < |items| {
        assert KeyAt(items, j) != KeyAt(items, i);
      }
    }
    assert LastOfKey(all, i);
  }

  /** One entry per distinct key ... */
  lemma {:induction false} DedupedDistinct(items: seq<Client>)
    ensures DistinctKeys(Deduped(items))
  {
    if items != [] {
      DedupedDistinct(items[..|items| - 1]);
      PutDistinct(Deduped(items[..|items| - 1]), EntryAt(items, |items| - 1));
    }
  }

  /** ... holding the last client served under it ... */
  lemma {:induction false} DedupedLast(items: seq<Client>, k: nat)
    requires k < |Deduped(items)|
    ensures FromLast(items, Deduped(items)[k])
  {
    var n := |items| - 1;
    var earlier, e := Deduped(items[..n]), EntryAt(items, n);
    DedupedDistinct(items[..n]);
    assert items == items[..n] + [items[n]];
    if Deduped(items)[k] == e {
      assert LastOfKey(items, n);
    } else {
      assert Deduped(items)[k] == earlier[k];
      DedupedLast(items[..n], k);
      StillLast(items[..n], items[n], earlier[k]);
    }
  }

  /** ... and no key is left out. */
  lemma {:induction false} DedupedHasAll(items: seq<Client>, i: nat)
    requires i < |items|
    ensures IndexOf(Deduped(items), KeyAt(items, i)) < |Deduped(items)|
  {
    var n := |items| - 1;
    if i < n {
      DedupedHasAll(items[..n], i);
      assert KeyAt(items[..n], i) == KeyAt(items, i);
    }
    PutFinds(Deduped(items[..n]), EntryAt(items, n), KeyAt(items, i));
  }

  lemma PutFinds(entries: seq<Entry>, e: Entry, key: Key)
    requires IndexOf(entries, key) < |entries| || key == e.key
    ensures IndexOf(Put(entries, e), key) < |Put(entries, e)|
  {
    assert Put(entries, e)[IndexOf(entries, key)].key == key;
  }

  lemma {:induction false} NoMoreThanServed(items: seq<Client>)
    ensures |Deduped(items)| <= |items|
  {
    if items != [] {
      NoMoreThanServed(items[..|items| - 1]);
    }
  }

  ghost predicate NoDuplicates(items: seq<Client>) {
    forall i, j | 0 <= i < j < |items| :: KeyAt(items, i) != KeyAt(items, j)
  }

  function Entries(items: seq<Client>): (r: seq<Entry>)
    ensures |r| == |items|
  {
    seq(|items|, i requires 0 <= i < |items| => EntryAt(items, i))
  }

  lemma PrefixKeys(items: seq<Client>, n: nat)
    requires n <= |items|
    ensures forall i | 0 <= i < n :: KeyAt(items[..n], i) == KeyAt(items, i)
    ensures NoDuplicates(items) ==> NoDuplicates(items[..n])
  {
    if NoDuplicates(items) {
      forall i, j | 0 <= i < j < n ensures KeyAt(items[..n], i) != KeyAt(items[..n], j) {
        assert KeyAt(items, i) != KeyAt(items, j);
      }
    }
  }

  /** Clients without duplicates come out as they came. */
  lemma {:induction false} NothingDropped(items: seq<Client>)
    requires NoDuplicates(items)
    ensures Deduped(items) == Entries(items) && Clients(Deduped(items)) == items
  {
    if items != [] {
      var n := |items| - 1;
      PrefixKeys(items, n);
      NothingDropped(items[..n]);
      var earlier := Entries(items[..n]);
      assert IndexOf(earlier, KeyAt(items, n)) == n;
      assert earlier + [EntryAt(items, n)] == Entries(items);
    }
    assert Clients(Entries(items)) == items;
  }

  /** Every duplicate makes the result shorter than what was served. */
  lemma {:induction false} DuplicateDropped(items: seq<Client>, i: nat, j: nat)
    requires i < j < |items| && KeyAt(items, i) == KeyAt(items, j)
    ensures |Deduped(items)| < |items|
  {
    var n := |items| - 1;
    PrefixKeys(items, n);
    if j < n {
      DuplicateDropped(items[..n], i, j);
    } else {
      DedupedHasAll(items[..n], i);
      NoMoreThanServed(items[..n]);
    }
  }

  // ---------------------------------------------------------------- the result

  /** What the call returns when page n is the last one. */
  function Outcome(pages: nat -> Fetch, n: nat): Result {
    var entries := Deduped(Served(pages, n));
    if pages(n).Raised? then RequestFailed
    else if |entries| < TotalAt(pages, n) then Incomplete
    else Listed(Clients(entries))
  }

  lemma ServedKeys(items: seq<Client>)
    ensures |Deduped(items)| == |set i | 0 <= i < |items| :: KeyAt(items, i)|
  {
    var entries := Deduped(items);
    var keys := set i | 0 <= i < |items| :: KeyAt(items, i);
    DedupedDistinct(items);
    KeySetSize(entries);
    forall k | 0 <= k < |entries| ensures entries[k].key in keys {
      DedupedLast(items, k);
    }
    forall i | 0 <= i < |items| ensures KeyAt(items, i) in KeySet(entries) {
      DedupedHasAll(items, i);
    }
    assert keys == KeySet(entries);
  }

  function KeySet(entries: seq<Entry>): set<Key> {
    set k | 0 <= k < |entries| :: entries[k].key
  }

  lemma {:induction false} KeySetSize(entries: seq<Entry>)
    requires DistinctKeys(entries)
    ensures |KeySet(entries)| == |entries|
  {
    if entries != [] {
      var n := |entries| - 1;
      KeySetSize(entries[..n]);
      assert KeySet(entries) == KeySet(entries[..n]) + {entries[n].key} by {
        assert forall k | 0 <= k < n :: entries[..n][k] == entries[k];
      }
    }
  }

  /** A normal return holds exactly one entry per distinct key served, and at least as many as the last
      page reported. */
  lemma ListedIsComplete(pages: nat -> Fetch, n: nat)
    requires Outcome(pages, n).Listed?
    ensures |Outcome(pages, n).clients| >= TotalAt(pages, n)
    ensures var items := Served(pages, n);
            |Outcome(pages, n).clients| == |set i | 0 <= i < |items| :: KeyAt(items, i)|
  {
    ServedKeys(Served(pages, n));
  }

  /** When the panel ends with a page that reports a total above what it served, the call raises. */
  lemma PrematureEndRaises(pages: nat -> Fetch, n: nat)
    requires pages(n).Page? && pages(n).total.Some? && |Served(pages, n)| < pages(n).total.value
    ensures Outcome(pages, n) == Incomplete
  {
    NoMoreThanServed(Served(pages, n));
  }

  /** A page without a total always ends the run. The call then raises if and only if some client was served
      twice: a list that broke off is returned as if it were complete. */
  lemma PageWithoutTotal(pages: nat -> Fetch, n: nat)
    requires pages(n).Page? && pages(n).total.None?
    ensures StopsAt(pages, n)
    ensures Outcome(pages, n) == if NoDuplicates(Served(pages, n)) then Listed(Served(pages, n)) else Incomplete
  {
    var items := Served(pages, n);
    if NoDuplicates(items) {
      NothingDropped(items);
    } else {
      var i, j :| 0 <= i < j < |items| && KeyAt(items, i) == KeyAt(items, j);
      DuplicateDropped(items, i, j);
    }
  }

  /** One of two clients is read, the second page is an empty object, and one client is returned. */
  lemma TruncatedList(a: Client, pages: nat -> Fetch)
    requires pages(1) == Page([a], Some(2)) && pages(2) == Page([], None)
    ensures LastPage(pages, 2) && Outcome(pages, 2) == Listed([a])
  {
    assert Served(pages, 0) == [];
    assert Served(pages, 1) == [a];
    assert Served(pages, 2) == [a];
    PageWithoutTotal(pages, 2);
  }

  // ---------------------------------------------------------------- which records are one client

  /** The text is the record's email, or its id if it has no email. */
  predicate Bears(c: Client, text: string) {
    text != "" && (c.email == text || (c.email == "" && c.id == TextId(text)))
  }

  /** The record has no email, and the number is its id. */
  predicate Numbered(c: Client, number: int) {
    number != 0 && c.email == "" && c.id == NumberId(number)
  }

  lemma BearsIsKey(items: seq<Client>, i: nat, text: string, number: int)
    requires i < |items|
    ensures Bears(items[i], text) <==> text != "" && KeyAt(items, i) == Text(text)
    ensures Numbered(items[i], number) <==> number != 0 && KeyAt(items, i) == Number(number)
  {
  }

  /** No two listed records are the same client: they share no email, and without emails no id. */
  lemma ListedOnce(items: seq<Client>, i: nat, j: nat)
    requires i < j < |Deduped(items)|
    ensures var a, b := Clients(Deduped(items))[i], Clients(Deduped(items))[j];
            && (a.email != "" ==> a.email != b.email)
            && (a.email == "" && b.email == "" && a.id != NoId && a.id != TextId("") && a.id != NumberId(0) ==> a.id != b.id)
  {
    DedupedDistinct(items);
    DedupedLast(items, i);
    DedupedLast(items, j);
    assert Deduped(items)[i].key != Deduped(items)[j].key;
  }

  /** The record listed under a text or a number. */
  lemma ListedUnder(items: seq<Client>, i: nat, k: nat)
    requires i < |items| && k < |Deduped(items)| && Deduped(items)[k].key == KeyAt(items, i)
    ensures exists j | 0 <= j < |items| ::
              KeyAt(items, j) == KeyAt(items, i) && LastOfKey(items, j) && items[j] == Deduped(items)[k].client
  {
    DedupedLast(items, k);
    var j :| 0 <= j < |items| && LastOfKey(items, j) && Deduped(items)[k] == EntryAt(items, j);
  }

  /** Record j is the last one served that bears the text. */
  ghost predicate LastBearer(items: seq<Client>, j: nat, text: string) {
    j < |items| && Bears(items[j], text) && forall m | j < m < |items| :: !Bears(items[m], text)
  }

  /** Every email served, and every text id served without an email, is listed with the last record that bears it. */
  lemma EveryEmailListed(items: seq<Client>, i: nat, text: string)
    requires i < |items| && Bears(items[i], text)
    ensures exists k, j | 0 <= k < |Clients(Deduped(items))| && 0 <= j < |items| ::
              LastBearer(items, j, text) && Clients(Deduped(items))[k] == items[j]
  {
    BearsIsKey(items, i, text, 0);
    DedupedHasAll(items, i);
    var k := IndexOf(Deduped(items), KeyAt(items, i));
    ListedUnder(items, i, k);
    var j :| 0 <= j < |items| && KeyAt(items, j) == KeyAt(items, i) && LastOfKey(items, j)
             && items[j] == Deduped(items)[k].client;
    BearsIsKey(items, j, text, 0);
    forall m | j < m < |items| ensures !Bears(items[m], text) {
      BearsIsKey(items, m, text, 0);
    }
    assert LastBearer(items, j, text) && Clients(Deduped(items))[k] == items[j];
  }

  /** Record j is the last one served without an email under the number. */
  ghost predicate LastNumbered(items: seq<Client>, j: nat, number: int) {
    j < |items| && Numbered(items[j], number) && forall m | j < m < |items| :: !Numbered(items[m], number)
  }

  lemma EveryNumberListed(items: seq<Client>, i: nat, number: int)
    requires i < |items| && Numbered(items[i], number)
    ensures exists k, j | 0 <= k < |Clients(Deduped(items))| && 0 <= j < |items| ::
              LastNumbered(items, j, number) && Clients(Deduped(items))[k] == items[j]
  {
    BearsIsKey(items, i, "", number);
    DedupedHasAll(items, i);
    var k := IndexOf(Deduped(items), KeyAt(items, i));
    ListedUnder(items, i, k);
    var j :| 0 <= j < |items| && KeyAt(items, j) == KeyAt(items, i) && LastOfKey(items, j)
             && items[j] == Deduped(items)[k].client;
    BearsIsKey(items, j, "", number);
    forall m | j < m < |items| ensures !Numbered(items[m], number) {
      BearsIsKey(items, m, "", number);
    }
    assert LastNumbered(items, j, number) && Clients(Deduped(items))[k] == items[j];
  }

  /** A record with neither an email nor an id is a client of its own and is always listed. */
  lemma NamelessListed(items: seq<Client>, i: nat)
    requires i < |items| && items[i].email == "" && items[i].id in {NoId, TextId(""), NumberId(0)}
    ensures exists k | 0 <= k < |Deduped(items)| :: Deduped(items)[k] == Entry(Identity(i), items[i])
  {
    DedupedHasAll(items, i);
    var k := IndexOf(Deduped(items), KeyAt(items, i));
    ListedUnder(items, i, k);
    assert Deduped(items)[k].key == Identity(i);
    forall j | 0 <= j < |items| && KeyAt(items, j) == KeyAt(items, i) ensures j == i {
      assert KeyAt(items, j).Identity? ==> KeyAt(items, j).index == j;
    }
  }

  function Emails(items: seq<Client>): set<string> {
    set i | 0 <= i < |items| :: items[i].email
  }

  lemma EmailsAreKeys(items: seq<Client>)
    requires forall i | 0 <= i < |items| :: items[i].email != ""
    ensures |Deduped(items)| == |Emails(items)|
  {
    var keys := set i | 0 <= i < |items| :: KeyAt(items, i);
    ServedKeys(items);
    assert forall i | 0 <= i < |items| :: KeyAt(items, i) == Text(items[i].email);
    TextsCount(Emails(items));
    assert keys == Texts(Emails(items));
  }

  function Texts(emails: set<string>): set<Key> {
    set e | e in emails :: Text(e)
  }

  lemma {:induction false} TextsCount(emails: set<string>)
    ensures |Texts(emails)| == |emails|
  {
    if emails != {} {
      SomeEmail(emails);
      var e :| e in emails;
      TextsCount(emails - {e});
      assert Texts(emails) == Texts(emails - {e}) + {Text(e)};
    } else {
      assert Texts(emails) == {};
    }
  }

  lemma SomeEmail(emails: set<string>)
    requires emails != {}
    ensures exists e :: e in emails
  {
    assert !(emails <= {});
  }

  /** When every record served has an email, the call returns normally if and only if there are at least as many
      different emails as the last page reports, and it then returns one record for each. */
  lemma EmailsDecide(pages: nat -> Fetch, n: nat)
    requires pages(n).Page? && forall i | 0 <= i < |Served(pages, n)| :: Served(pages, n)[i].email != ""
    ensures var distinct, r := |Emails(Served(pages, n))|, Outcome(pages, n);
            && (r.Listed? <==> distinct >= TotalAt(pages, n))
            && (r.Listed? ==> |r.clients| == distinct) && (!r.Listed? ==> r == Incomplete)
  {
    EmailsAreKeys(Served(pages, n));
  }

  // ---------------------------------------------------------------- a panel that pages a fixed list

  /** Where page p of a list ends. */
  function Cut(length: nat, size: nat, p: nat): (r: nat)
    ensures r <= length
  {
    if p == 0 then 0 else
      var r := Cut(length, size, p - 1) + size;
      if r < length then r else length
  }

  lemma CutGrows(length: nat, size: nat, p: nat)
    requires p >= 1
    ensures Cut(length, size, p - 1) <= Cut(length, size, p)
  {
  }

  /** Every page holds the next `size` clients and reports the true total. */
  ghost predicate Paging(pages: nat -> Fetch, all: seq<Client>, size: nat) {
    forall p: nat | p >= 1 ::
      Cut(|all|, size, p - 1) <= Cut(|all|, size, p)
      && pages(p) == Page(all[Cut(|all|, size, p - 1)..Cut(|all|, size, p)], Some(|all|))
  }

  lemma {:induction false} ServedSoFar(pages: nat -> Fetch, all: seq<Client>, size: nat, n: nat)
    requires Paging(pages, all, size)
    ensures Served(pages, n) == all[..Cut(|all|, size, n)]
  {
    if n > 0 {
      ServedSoFar(pages, all, size, n - 1);
      CutGrows(|all|, size, n);
    }
  }

  /** Pages are requested until everything was served, and no longer. */
  lemma AllPagesNeeded(pages: nat -> Fetch, all: seq<Client>, size: nat, n: nat)
    requires size > 0 && Paging(pages, all, size) && LastPage(pages, n)
    ensures Served(pages, n) == all && (n > 1 ==> |Served(pages, n - 1)| < |all|)
    ensures pages(n).Page? && TotalAt(pages, n) == |all|
  {
    ServedSoFar(pages, all, size, n);
    ReportsTotal(pages, all, size, n);
    if n > 1 {
      assert !StopsAt(pages, n - 1);
      ReportsTotal(pages, all, size, n - 1);
    }
    assert Served(pages, n) == all;
  }

  lemma ReportsTotal(pages: nat -> Fetch, all: seq<Client>, size: nat, p: nat)
    requires p >= 1 && Paging(pages, all, size)
    ensures pages(p).Page? && pages(p).total == Some(|all|)
    ensures Cut(|all|, size, p - 1) <= Cut(|all|, size, p)
    ensures pages(p).items == all[Cut(|all|, size, p - 1)..Cut(|all|, size, p)]
  {
    CutGrows(|all|, size, p);
  }

  /** A fixed list without duplicates is returned as it is; with a duplicate the call raises. */
  lemma FixedListReturned(pages: nat -> Fetch, all: seq<Client>, size: nat, n: nat)
    requires size > 0 && Paging(pages, all, size) && LastPage(pages, n)
    ensures Outcome(pages, n) == if NoDuplicates(all) then Listed(all) else Incomplete
    ensures Served(pages, n) == all && (n > 1 ==> |Served(pages, n - 1)| < |all|)
  {
    AllPagesNeeded(pages, all, size, n);
    if NoDuplicates(all) {
      NothingDropped(all);
    } else {
      var i, j :| 0 <= i < j < |all| && KeyAt(all, i) == KeyAt(all, j);
      DuplicateDropped(all, i, j);
    }
  }

  // ---------------------------------------------------------------- the loops

  method Dedupe(items: seq<Client>) returns (entries: seq<Entry>)
    ensures entries == Deduped(items)
  {
    entries := [];
    var i := 0;
    while i < |items|
      invariant 0 <= i <= |items| && entries == Deduped(items[..i])
    {
      assert items[..i + 1][..i] == items[..i];
      assert KeyAt(items[..i + 1], i) == KeyAt(items, i);
      entries := Put(entries, EntryAt(items, i));
      i := i + 1;
    }
    assert items[..i] == items;
  }

  /** The result, and how many pages were requested. Ends on every panel that serves finitely many pages
      with clients on them. */
  method ListClientsAll(pages: nat -> Fetch, ghost bound: nat) returns (r: Result, n: nat)
    requires forall p: nat | p > bound :: ItemsOf(pages(p)) == []
    ensures LastPage(pages, n) && r == Outcome(pages, n)
    ensures forall m: nat | LastPage(pages, m) :: m == n
  {
    var items: seq<Client> := [];
    var page: nat := 1;
    var reported: int;
    while true
      invariant page >= 1 && items == Served(pages, page - 1)
      invariant forall m: nat | 1 <= m < page :: !StopsAt(pages, m)
      invariant page <= bound + 1
      decreases bound + 1 - page
    {
      var fetch := pages(page);
      if fetch.Raised? {
        OnlyLastPage(pages, page);
        return RequestFailed, page;
      }
      items := items + fetch.items;
      reported := if fetch.total.Some? then fetch.total.value else |items|;
      if fetch.items == [] || |items| >= reported {
        break;
      }
      assert page <= bound by {
        assert page > bound ==> ItemsOf(pages(page)) == [];
      }
      page := page + 1;
    }
    var unique := Dedupe(items);
    r := if |unique| < reported then Incomplete else Listed(Clients(unique));
    n := page;
    OnlyLastPage(pages, n);
  }
}
