/** Who may see which activity, and the listing that shows it. */
module ActivityLog {
  import opened KeyOrder
  import opened KeysetPaging
  import opened Text

  datatype Permissions = Permissions(readWorkspace: bool, read: bool, readOwn: bool)

  datatype Scope = Workspace | Brand(brands: Option<set<int>>) | Own(user: int) | Nothing

  /** Most privileged first; an empty brand list means every brand. */
  function ResolveActivityScope(p: Permissions, user: int, brandScope: set<int>): Scope {
    if p.readWorkspace then Workspace
    else if p.read then Brand(if brandScope == {} then None else Some(brandScope))
    else if p.readOwn then Own(user)
    else Nothing
  }

  /** An audit row. Newest first: the sort value is the time, negated, and so is the id. */
  datatype Entry = Entry(key: Key, action: int, actor: Option<int>, brand: Option<int>)

  datatype Filter = Filter(brand: Option<int>, action: Option<int>, actor: Option<int>, since: Option<int>, until: Option<int>)

  predicate ScopeAllows(s: Scope, e: Entry) {
    match s
    case Workspace => true
    case Brand(None) => true
    case Brand(Some(brands)) => e.brand.Some? && e.brand.value in brands
    case Own(user) => e.actor == Some(user)
    case Nothing => false
  }

  /** Times are compared on the column, so on the negated sort value. */
  predicate FilterAllows(f: Filter, e: Entry) {
    && (f.brand.Some? ==> e.brand == f.brand)
    && (f.action.Some? ==> e.action == f.action.value)
    && (f.actor.Some? ==> e.actor == f.actor)
    && (f.since.Some? ==> f.since.value <= -e.key.value)
    && (f.until.Some? ==> -e.key.value <= f.until.value)
  }

  const NEWEST_FIRST := Listing(true, true)

  const PAGE_SIZE := 25
  const MAX_PAGE_SIZE := 100

  function Take(asked: Option<int>): (n: nat)
    ensures 1 <= n <= MAX_PAGE_SIZE
  {
    var n := if asked.Some? then asked.value else PAGE_SIZE;
    if n < 1 then 1 else if n > MAX_PAGE_SIZE then MAX_PAGE_SIZE else n
  }

  /** The rows of the log a reader's query ranges over: scope AND filter. */
  function Visible(log: map<Key, Entry>, s: Scope, f: Filter): (r: set<Key>)
    ensures forall k :: k in r <==> k in log && ScopeAllows(s, log[k]) && FilterAllows(f, log[k])
  {
    set k | k in log && ScopeAllows(s, log[k]) && FilterAllows(f, log[k])
  }

  /** A page, or nothing at all for a reader without any of the three permissions. */
  method ReadPage(log: map<Key, Entry>, p: Permissions, user: int, brandScope: set<int>, f: Filter, cursor: Option<Key>, take: Option<int>)
    returns (page: Page)
    ensures var s := ResolveActivityScope(p, user, brandScope);
            && (s.Nothing? ==> page == Page([], None))
            && (!s.Nothing? ==> IsPage(NEWEST_FIRST, Visible(log, s, f), cursor, Take(take), page))
            && (forall i :: 0 <= i < |page.items| ==>
                  page.items[i] in log && ScopeAllows(s, log[page.items[i]]) && FilterAllows(f, log[page.items[i]]))
  {
    var s := ResolveActivityScope(p, user, brandScope);
    if s.Nothing? {
      return Page([], None);
    }
    page := FetchPage(NEWEST_FIRST, Visible(log, s, f), cursor, Take(take));
    forall i | 0 <= i < |page.items|
      ensures page.items[i] in Visible(log, s, f)
    {
      PageHolds(NEWEST_FIRST, Visible(log, s, f), cursor, Take(take), page, page.items[i]);
    }
  }

  /** A filter can only narrow: whatever is sent, the rows are among those the scope allows without it. */
  lemma FiltersOnlyNarrow(log: map<Key, Entry>, s: Scope, f: Filter)
    ensures Visible(log, s, f) <= Visible(log, s, Filter(None, None, None, None, None))
    ensures forall k :: k in Visible(log, s, f) ==> ScopeAllows(s, log[k])
  {
  }

  /**
   * Who sees a row: a reader of the whole workspace any; a reader by brand any of their brands, and any at all when
   * their membership is not restricted; a reader of their own what they did; and each no more than that.
   */
  lemma WhoSeesARow(p: Permissions, user: int, brandScope: set<int>, e: Entry)
    ensures ScopeAllows(ResolveActivityScope(p, user, brandScope), e) <==>
              || p.readWorkspace
              || (p.read && (brandScope == {} || (e.brand.Some? && e.brand.value in brandScope)))
              || (!p.read && p.readOwn && e.actor == Some(user))
  {
  }

  /** What a filter leaves of the log: the rows of its brand, action and actor, from its first instant to its last. */
  lemma FilterKeepsExactly(log: map<Key, Entry>, f: Filter, k: Key)
    requires k in log
    ensures var at := -log[k].key.value;
            k in Visible(log, Workspace, f) <==>
              && f.brand in {None, log[k].brand} && f.action in {None, Some(log[k].action)} && f.actor in {None, log[k].actor}
              && (f.since == None || f.since.value <= at) && (f.until == None || at <= f.until.value)
  {
  }

  predicate Wider(a: Permissions, b: Permissions) {
    (a.readWorkspace ==> b.readWorkspace) && (a.read ==> b.read) && (a.readOwn ==> b.readOwn)
  }

  /**
   * "The wider view" of a role with two keys, made exact. Adding permissions never hides a row, with one
   * exception: a reader of only their own actions who is also given the brand-graded key, with a restricted
   * membership, loses their own actions outside those brands.
   */
  lemma MorePermissionsHideExactly(a: Permissions, b: Permissions, user: int, brandScope: set<int>, e: Entry)
    requires Wider(a, b) && ScopeAllows(ResolveActivityScope(a, user, brandScope), e)
    ensures !ScopeAllows(ResolveActivityScope(b, user, brandScope), e) <==>
            !b.readWorkspace && b.read && !a.read && brandScope != {} && !(e.brand.Some? && e.brand.value in brandScope)
  {
    var brands := ResolveActivityScope(b, user, brandScope);
    assert brands.Brand? && brandScope != {} ==> brands == Brand(Some(brandScope));
  }
}
