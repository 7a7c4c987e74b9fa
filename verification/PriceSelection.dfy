/** Which price version applies to a request: the nested query and the order it optimises. */
module PriceSelection {
  import opened Wrappers
  import opened Uuids

  /** A profile, project, tenant or model row that may name a default price book. */
  datatype Owner = Owner(active: bool, deleted: bool, defaultBook: Option<Uuid>)

  datatype PriceBook = PriceBook(id: Uuid, tenant: Uuid, project: Option<Uuid>, active: bool)

  datatype PriceVersion = PriceVersion(
    id: Uuid, tenant: Uuid, book: Uuid, model: Option<Uuid>, active: bool,
    effectiveAt: int, retiredAt: Option<int>, createdAt: int)

  /** The rows found for the request's ids, if any, and the tables searched. */
  datatype Request = Request(
    tenant: Uuid, project: Uuid, model: Uuid, now: int,
    profileRow: Option<Owner>, projectRow: Option<Owner>, tenantRow: Option<Owner>, modelRow: Option<Owner>,
    books: seq<PriceBook>, versions: seq<PriceVersion>)

  datatype Selector = Selector(priority: nat, book: Uuid)

  // ---------------------------------------------------------------- the query

  predicate InForce(o: Option<Owner>) { o.Some? && o.value.active && !o.value.deleted }

  function SelectorOf(o: Option<Owner>, priority: nat): seq<Selector> {
    if InForce(o) && o.value.defaultBook.Some? then [Selector(priority, o.value.defaultBook.value)] else []
  }

  /** Profile, project, tenant and model defaults, in this order of precedence. */
  function Selectors(r: Request): seq<Selector> {
    SelectorOf(r.profileRow, 1) + SelectorOf(r.projectRow, 2) + SelectorOf(r.tenantRow, 3) + SelectorOf(r.modelRow, 4)
  }

  predicate BookMatches(r: Request, b: PriceBook, s: Selector) {
    b.tenant == r.tenant && b.id == s.book && b.active && (b.project.None? || b.project == Some(r.project))
  }

  predicate VersionMatches(r: Request, v: PriceVersion, book: Uuid) {
    && v.tenant == r.tenant
    && v.book == book
    && v.active
    && v.effectiveAt <= r.now
    && (v.retiredAt.None? || v.retiredAt.value > r.now)
    && (v.model == Some(r.model) || v.model.None?)
  }

  /** Model-specific first, then the newest effective, the newest created, the smallest id. */
  predicate VersionBefore(a: PriceVersion, b: PriceVersion) {
    if a.model.Some? != b.model.Some? then a.model.Some?
    else if a.effectiveAt != b.effectiveAt then a.effectiveAt > b.effectiveAt
    else if a.createdAt != b.createdAt then a.createdAt > b.createdAt
    else a.id < b.id
  }

  /** The lateral sub-query: the best version of one book. */
  function BestVersion(r: Request, vs: seq<PriceVersion>, book: Uuid): (best: Option<PriceVersion>)
    ensures best.Some? ==> best.value in vs && VersionMatches(r, best.value, book)
    ensures best.Some? ==> forall v :: v in vs && VersionMatches(r, v, book) ==> !VersionBefore(v, best.value)
    ensures best.None? ==> forall v :: v in vs ==> !VersionMatches(r, v, book)
  {
    if vs == [] then None
    else
      var rest := BestVersion(r, vs[1..], book);
      if !VersionMatches(r, vs[0], book) then rest
      else if rest.Some? && VersionBefore(rest.value, vs[0]) then rest
      else Some(vs[0])
  }

  datatype Pick = Pick(priority: nat, version: PriceVersion)

  /** The joined rows of one selector: a matching book contributes its best version, or nothing. */
  function PicksOfBooks(r: Request, s: Selector, books: seq<PriceBook>): seq<Pick> {
    if books == [] then []
    else
      var best := BestVersion(r, r.versions, books[0].id);
      (if BookMatches(r, books[0], s) && best.Some? then [Pick(s.priority, best.value)] else [])
      + PicksOfBooks(r, s, books[1..])
  }

  function Picks(r: Request, ss: seq<Selector>): seq<Pick> {
    if ss == [] then [] else PicksOfBooks(r, ss[0], r.books) + Picks(r, ss[1..])
  }

  function LowestPriority(ps: seq<Pick>): (best: Option<Pick>)
    ensures best.Some? ==> best.value in ps && forall p :: p in ps ==> best.value.priority <= p.priority
    ensures best.None? <==> ps == []
  {
    if ps == [] then None
    else
      var rest := LowestPriority(ps[1..]);
      if rest.Some? && rest.value.priority < ps[0].priority then rest else Some(ps[0])
  }

  function ResolvePrice(r: Request): Option<PriceVersion> {
    if !InForce(r.modelRow) then None
    else
      var pick := LowestPriority(Picks(r, Selectors(r)));
      if pick.None? then None else Some(pick.value.version)
  }

  // ---------------------------------------------------------------- what it computes

  /** A version that some selector's book offers to the request. */
  ghost predicate Eligible(r: Request, s: Selector, v: PriceVersion) {
    && s in Selectors(r)
    && v in r.versions
    && exists b :: b in r.books && BookMatches(r, b, s) && VersionMatches(r, v, b.id)
  }

  lemma {:induction false} BookPicksSound(r: Request, s: Selector, books: seq<PriceBook>, p: Pick)
    requires p in PicksOfBooks(r, s, books)
    ensures p.priority == s.priority
    ensures exists b :: b in books && BookMatches(r, b, s) && BestVersion(r, r.versions, b.id) == Some(p.version)
  {
    var best := BestVersion(r, r.versions, books[0].id);
    if BookMatches(r, books[0], s) && best.Some? && p == Pick(s.priority, best.value) {
      assert books[0] in books;
    } else {
      BookPicksSound(r, s, books[1..], p);
    }
  }

  lemma {:induction false} BookPicksComplete(r: Request, s: Selector, books: seq<PriceBook>, b: PriceBook)
    requires b in books && BookMatches(r, b, s) && BestVersion(r, r.versions, b.id).Some?
    ensures Pick(s.priority, BestVersion(r, r.versions, b.id).value) in PicksOfBooks(r, s, books)
  {
    if b != books[0] {
      BookPicksComplete(r, s, books[1..], b);
    }
  }

  lemma {:induction false} PicksSound(r: Request, ss: seq<Selector>, p: Pick) returns (s: Selector)
    requires p in Picks(r, ss)
    ensures s in ss && p in PicksOfBooks(r, s, r.books)
  {
    if p in PicksOfBooks(r, ss[0], r.books) {
      s := ss[0];
    } else {
      s := PicksSound(r, ss[1..], p);
    }
  }

  lemma {:induction false} PicksComplete(r: Request, ss: seq<Selector>, s: Selector, p: Pick)
    requires s in ss && p in PicksOfBooks(r, s, r.books)
    ensures p in Picks(r, ss)
  {
    if s != ss[0] {
      PicksComplete(r, ss[1..], s, p);
    }
  }

  predicate BooksUnique(bs: seq<PriceBook>) {
    forall a, b :: a in bs && b in bs && a.id == b.id ==> a == b
  }

  /** The four selectors have different priorities. */
  lemma {:induction false} SelectorsDiffer(r: Request, a: Selector, b: Selector)
    requires a in Selectors(r) && b in Selectors(r) && a.priority == b.priority
    ensures a == b
  {
  }

  /** An eligible version is in a book whose best version was picked, and does not come before it. */
  lemma {:induction false} EligiblePick(r: Request, s: Selector, v: PriceVersion) returns (p: Pick)
    requires Eligible(r, s, v)
    ensures p in Picks(r, Selectors(r)) && p.priority == s.priority && !VersionBefore(v, p.version)
  {
    var b :| b in r.books && BookMatches(r, b, s) && VersionMatches(r, v, b.id);
    var best := BestVersion(r, r.versions, b.id);
    p := Pick(s.priority, best.value);
    BookPicksComplete(r, s, r.books, b);
    PicksComplete(r, Selectors(r), s, p);
  }

  lemma {:induction false} PickEligible(r: Request, p: Pick) returns (s: Selector)
    requires BooksUnique(r.books) && p in Picks(r, Selectors(r))
    ensures s.priority == p.priority && Eligible(r, s, p.version)
    ensures forall v :: Eligible(r, s, v) ==> !VersionBefore(v, p.version)
  {
    s := PicksSound(r, Selectors(r), p);
    BookPicksSound(r, s, r.books, p);
    var b :| b in r.books && BookMatches(r, b, s) && BestVersion(r, r.versions, b.id) == Some(p.version);
    forall v | Eligible(r, s, v) ensures !VersionBefore(v, p.version) {
      var c :| c in r.books && BookMatches(r, c, s) && VersionMatches(r, v, c.id);
      assert c == b;
    }
  }

  /**
   The nested query is a global optimum. With the model in force, a price is
   found exactly when some selector's book offers an eligible version, and the
   one found is offered by a selector of the lowest priority number that offers
   any, and within it no eligible version comes before it.
   */
  lemma {:induction false} PriceIsGlobalOptimum(r: Request)
    requires BooksUnique(r.books)
    ensures ResolvePrice(r).Some? <==> InForce(r.modelRow) && exists s, v :: Eligible(r, s, v)
    ensures ResolvePrice(r).Some? ==>
              exists s :: Eligible(r, s, ResolvePrice(r).value) && LexBest(r, s, ResolvePrice(r).value)
  {
    var picks := Picks(r, Selectors(r));
    forall s, v | Eligible(r, s, v) ensures picks != [] {
      var p := EligiblePick(r, s, v);
    }
    if ResolvePrice(r).Some? {
      var pick := LowestPriority(picks).value;
      var s := PickEligible(r, pick);
      forall s', v' | Eligible(r, s', v')
        ensures s.priority < s'.priority || (s == s' && !VersionBefore(v', pick.version))
      {
        var p := EligiblePick(r, s', v');
        if s.priority == s'.priority {
          SelectorsDiffer(r, s, s');
        }
      }
      assert LexBest(r, s, pick.version);
    } else if InForce(r.modelRow) {
      assert picks == [];
    }
  }

  /** Lexicographically first among all eligible pairs of selector and version. */
  ghost predicate LexBest(r: Request, s: Selector, v: PriceVersion) {
    forall s', v' :: Eligible(r, s', v') ==> s.priority < s'.priority || (s == s' && !VersionBefore(v', v))
  }

  // ---------------------------------------------------------------- the order of precedence

  /** The owner, being active, names a book that is open to the project and holds a version in force for the model. */
  ghost predicate Offers(r: Request, owner: Option<Owner>, v: PriceVersion) {
    && owner.Some? && owner.value.active && !owner.value.deleted && owner.value.defaultBook.Some?
    && v in r.versions && v.tenant == r.tenant && v.book == owner.value.defaultBook.value && v.active
    && v.effectiveAt <= r.now && (v.retiredAt == None || r.now < v.retiredAt.value)
    && (v.model == None || v.model == Some(r.model))
    && exists b :: b in r.books && b.id == owner.value.defaultBook.value && b.tenant == r.tenant && b.active
                   && (b.project == None || b.project == Some(r.project))
  }

  ghost predicate OffersAny(r: Request, owner: Option<Owner>) {
    exists v :: Offers(r, owner, v)
  }

  /** No version that the owner offers is preferred: own model, then newest effective, newest created, smallest id. */
  ghost predicate BestOffer(r: Request, owner: Option<Owner>, v: PriceVersion) {
    && Offers(r, owner, v)
    && forall x :: Offers(r, owner, x) ==>
         && (x.model.Some? ==> v.model.Some?)
         && (x.model.Some? == v.model.Some? ==>
               || v.effectiveAt > x.effectiveAt
               || (v.effectiveAt == x.effectiveAt
                   && (v.createdAt > x.createdAt || (v.createdAt == x.createdAt && v.id <= x.id))))
  }

  lemma {:induction false} SelectorRows(r: Request, s: Selector)
    ensures s in Selectors(r)
       <==> || s in SelectorOf(r.profileRow, 1) || s in SelectorOf(r.projectRow, 2)
            || s in SelectorOf(r.tenantRow, 3) || s in SelectorOf(r.modelRow, 4)
  {
  }

  lemma {:induction false} OfferIsEligible(r: Request, owner: Option<Owner>, priority: nat, v: PriceVersion)
    requires forall s :: s in SelectorOf(owner, priority) ==> s in Selectors(r)
    ensures Offers(r, owner, v)
       <==> InForce(owner) && owner.value.defaultBook.Some?
            && Eligible(r, Selector(priority, owner.value.defaultBook.value), v)
  {
    if InForce(owner) && owner.value.defaultBook.Some? {
      var s := Selector(priority, owner.value.defaultBook.value);
      assert s in SelectorOf(owner, priority);
      if Offers(r, owner, v) {
        var b :| b in r.books && b.id == owner.value.defaultBook.value && b.tenant == r.tenant && b.active
                 && (b.project == None || b.project == Some(r.project));
        assert BookMatches(r, b, s) && VersionMatches(r, v, b.id);
      }
    }
  }

  /** The row whose selector has a given priority. */
  function RowOf(r: Request, priority: nat): Option<Owner> {
    if priority == 1 then r.profileRow
    else if priority == 2 then r.projectRow
    else if priority == 3 then r.tenantRow
    else if priority == 4 then r.modelRow
    else None
  }

  lemma {:induction false} RowOffers(r: Request, priority: nat, v: PriceVersion)
    requires 1 <= priority <= 4
    ensures Offers(r, RowOf(r, priority), v)
       <==> InForce(RowOf(r, priority)) && RowOf(r, priority).value.defaultBook.Some?
            && Eligible(r, Selector(priority, RowOf(r, priority).value.defaultBook.value), v)
  {
    forall s | s in SelectorOf(RowOf(r, priority), priority) ensures s in Selectors(r) { SelectorRows(r, s); }
    OfferIsEligible(r, RowOf(r, priority), priority, v);
  }

  lemma {:induction false} SelectorIsRow(r: Request, s: Selector)
    requires s in Selectors(r)
    ensures 1 <= s.priority <= 4 && InForce(RowOf(r, s.priority))
    ensures RowOf(r, s.priority).value.defaultBook == Some(s.book)
  {
    SelectorRows(r, s);
  }

  /** The price found is the best offer of the first row that offers anything. */
  lemma {:induction false} PriceOfRow(r: Request) returns (priority: nat)
    requires BooksUnique(r.books) && ResolvePrice(r).Some?
    ensures 1 <= priority <= 4 && BestOffer(r, RowOf(r, priority), ResolvePrice(r).value)
    ensures forall q :: 1 <= q < priority ==> !OffersAny(r, RowOf(r, q))
  {
    PriceIsGlobalOptimum(r);
    var v := ResolvePrice(r).value;
    var s :| Eligible(r, s, v) && LexBest(r, s, v);
    SelectorIsRow(r, s);
    priority := s.priority;
    RowOffers(r, priority, v);
    forall x | Offers(r, RowOf(r, priority), x) ensures Eligible(r, s, x) && !VersionBefore(x, v) {
      RowOffers(r, priority, x);
    }
    forall q | 1 <= q < priority ensures !OffersAny(r, RowOf(r, q)) {
      forall x ensures !Offers(r, RowOf(r, q), x) {
        RowOffers(r, q, x);
      }
    }
  }

  /**
   Precedence, from the rows themselves: with the model active, the price is
   the best offer of the profile's default book if that offers any, otherwise of
   the project's, otherwise of the tenant's, otherwise of the model's, and there
   is none if none of them offers any.
   */
  lemma {:induction false} PrecedenceOfBooks(r: Request)
    requires BooksUnique(r.books)
    requires r.modelRow.Some? && r.modelRow.value.active && !r.modelRow.value.deleted
    ensures var price := ResolvePrice(r);
            if OffersAny(r, r.profileRow) then price.Some? && BestOffer(r, r.profileRow, price.value)
            else if OffersAny(r, r.projectRow) then price.Some? && BestOffer(r, r.projectRow, price.value)
            else if OffersAny(r, r.tenantRow) then price.Some? && BestOffer(r, r.tenantRow, price.value)
            else if OffersAny(r, r.modelRow) then price.Some? && BestOffer(r, r.modelRow, price.value)
            else price.None?
  {
    if ResolvePrice(r).Some? {
      var p := PriceOfRow(r);
      assert OffersAny(r, RowOf(r, p));
      assert RowOf(r, 1) == r.profileRow && RowOf(r, 2) == r.projectRow;
      assert RowOf(r, 3) == r.tenantRow && RowOf(r, 4) == r.modelRow;
    } else {
      forall q | 1 <= q <= 4 ensures !OffersAny(r, RowOf(r, q)) {
        forall x ensures !Offers(r, RowOf(r, q), x) {
          RowOffers(r, q, x);
          PriceIsGlobalOptimum(r);
        }
      }
      assert RowOf(r, 1) == r.profileRow && RowOf(r, 2) == r.projectRow;
      assert RowOf(r, 3) == r.tenantRow && RowOf(r, 4) == r.modelRow;
    }
  }

  /** Without an active model there is no price. */
  lemma {:induction false} NoModelNoPrice(r: Request)
    requires r.modelRow.None? || !r.modelRow.value.active || r.modelRow.value.deleted
    ensures ResolvePrice(r).None?
  {
  }
}
