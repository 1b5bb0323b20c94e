/** Following a cursor chain to its end, with cycle detection. */
module PageCollector {
  import opened Prelude

  datatype Page<T> = Page(items: seq<T>, nextCursor: Option<string>)

  /** A deterministic server: None asks for the first page, Err is a failed load. */
  type Server<T> = Option<string> -> Result<Page<T>, ()>

  datatype CollectError = LoadFailed | CursorRepeated

  /** An empty cursor ends the chain like a missing one. */
  function Next<T>(page: Page<T>): Option<string> {
    if page.nextCursor == Some("") then None else page.nextCursor
  }

  /** Where the chain stands after n pages. */
  datatype Link = Asking(cursor: Option<string>) | Ended | Broken

  function LinkAt<T>(server: Server<T>, n: nat): Link {
    if n == 0 then Asking(None)
    else match LinkAt(server, n - 1)
         case Ended => Ended
         case Broken => Broken
         case Asking(cursor) =>
           match server(cursor)
           case Err(_) => Broken
           case Ok(page) => if Next(page).None? then Ended else Asking(Next(page))
  }

  /** A chain breaks at a failed load, ends at a page with no cursor or an empty one, and otherwise asks for the cursor sent. */
  lemma LinkIs<T>(server: Server<T>, n: nat, cursor: Option<string>)
    requires LinkAt(server, n) == Asking(cursor)
    ensures
      match server(cursor)
      case Err(_) => LinkAt(server, n + 1) == Broken
      case Ok(page) =>
        && (page.nextCursor in {None, Some("")} ==> LinkAt(server, n + 1) == Ended)
        && (page.nextCursor !in {None, Some("")} ==> LinkAt(server, n + 1) == Asking(page.nextCursor))
  {
  }

  function ItemsAt<T>(server: Server<T>, n: nat): seq<T> {
    match LinkAt(server, n)
    case Asking(cursor) => (match server(cursor) case Ok(page) => page.items case Err(_) => [])
    case _ => []
  }

  /** The concatenation of the first n pages of the chain. */
  function Collected<T>(server: Server<T>, n: nat): seq<T> {
    if n == 0 then [] else Collected(server, n - 1) + ItemsAt(server, n - 1)
  }

  lemma {:induction false} EndIsFinal<T>(server: Server<T>, m: nat, n: nat)
    requires m <= n && !LinkAt(server, m).Asking?
    ensures LinkAt(server, n) == LinkAt(server, m)
  {
    if m < n { EndIsFinal(server, m, n - 1); }
  }

  /** A chain that asks for the same cursor twice never ends. */
  lemma {:induction false} RepeatedNeverEnds<T>(server: Server<T>, i: nat, j: nat, n: nat)
    requires i < j && LinkAt(server, i) == LinkAt(server, j) && LinkAt(server, j).Asking?
    ensures LinkAt(server, n).Asking?
    ensures n >= j ==> LinkAt(server, n) == LinkAt(server, n - (j - i))
  {
    if n <= j {
      if !LinkAt(server, n).Asking? { EndIsFinal(server, n, j); assert false; }
    } else {
      RepeatedNeverEnds(server, i, j, n - 1);
      RepeatedNeverEnds(server, i, j, n - (j - i));
    }
  }

  /** Every cursor the chain asks for is one of these. */
  ghost predicate CursorsIn<T>(server: Server<T>, universe: set<string>) {
    forall n: nat :: LinkAt(server, n).Asking? && LinkAt(server, n).cursor.Some? ==> LinkAt(server, n).cursor.value in universe
  }

  /** The loop is still going after n loads: no end, no failure and no cursor twice. */
  ghost predicate Outlasts<T>(server: Server<T>, n: nat) {
    && (forall i: nat | i <= n :: LinkAt(server, i).Asking?)
    && (forall i: nat, j: nat | i < j <= n :: LinkAt(server, i) != LinkAt(server, j))
  }

  /** The cursors seen are those of links 1 to n, all different. */
  ghost predicate Seen<T>(server: Server<T>, cursors: set<string>, n: nat) {
    && |cursors| == n && Outlasts(server, n)
    && (forall i: nat | i <= n :: LinkAt(server, i).Asking? && (LinkAt(server, i).cursor.Some? <==> i > 0))
    && (forall i: nat | 0 < i <= n :: LinkAt(server, i).cursor.value in cursors)
    && (forall c | c in cursors :: exists i: nat :: 0 < i <= n && LinkAt(server, i) == Asking(Some(c)))
  }

  /**
   The loop, watched for at most `budget` loads; None when it is still going
   then.  It returns the pages of the whole chain exactly when the chain ends, a
   failure exactly when a load of it fails, an error exactly when it repeats a
   cursor, and over finitely many cursors it stops after at most one load more
   than there are cursors.
   */
  method CollectPages<T>(server: Server<T>, budget: nat) returns (r: Option<Result<seq<T>, CollectError>>, loads: nat)
    ensures loads <= budget && (r.None? ==> loads == budget)
    ensures r.None? <==> Outlasts(server, budget)
    ensures r.Some? && r.value.Ok? ==> LinkAt(server, loads).Ended? && r.value.value == Collected(server, loads)
    ensures r.Some? ==> (r.value.Ok? <==> exists n :: LinkAt(server, n).Ended?)
    ensures r.Some? ==> (r.value == Err(LoadFailed) <==> exists n :: LinkAt(server, n).Broken?)
    ensures r.Some? ==> (r.value == Err(CursorRepeated) <==> forall n :: LinkAt(server, n).Asking?)
    ensures r == Some(Err(CursorRepeated)) ==> exists i :: 0 < i < loads && LinkAt(server, i) == LinkAt(server, loads)
    ensures forall universe: set<string> | CursorsIn(server, universe) ::
              loads <= |universe| + 1 && (budget > |universe| ==> r.Some?)
  {
    hide LinkAt, Outlasts, Seen, CursorsIn;
    var result: seq<T> := [];
    var cursors: set<string> := {};
    var cursor: Option<string> := None;
    loads := 0;
    NothingSeen(server);
    while loads < budget
      invariant loads <= budget
      invariant LinkAt(server, loads) == Asking(cursor)
      invariant Seen(server, cursors, loads)
      invariant result == Collected(server, loads)
    {
      var page := server(cursor);
      SeenOutlasts(server, cursors, loads);
      NextLink(server, loads);
      loads := loads + 1;
      if page.Err? {
        BrokenChain(server, loads);
        Stops(server, loads, budget);
        return Some(Err(LoadFailed)), loads;
      }
      result := result + page.value.items;
      var next := Next(page.value);
      if next.Some? && next.value in cursors {
        var i := SeenAt(server, cursors, loads - 1, next.value);
        EndlessChain(server, i, loads);
        Repeats(server, i, loads, budget);
        return Some(Err(CursorRepeated)), loads;
      }
      if next.None? {
        EndedChain(server, loads);
        Stops(server, loads, budget);
        return Some(Ok(result)), loads;
      }
      SeenStep(server, cursors, loads - 1, next.value);
      cursors := cursors + {next.value};
      cursor := next;
    }
    SeenOutlasts(server, cursors, budget);
    return None, loads;
  }

  lemma NextLink<T>(server: Server<T>, n: nat)
    requires LinkAt(server, n).Asking?
    ensures
      var page := server(LinkAt(server, n).cursor);
      LinkAt(server, n + 1) == if page.Err? then Broken else if Next(page.value).None? then Ended else Asking(Next(page.value))
    ensures
      var page := server(LinkAt(server, n).cursor);
      page.Ok? ==> ItemsAt(server, n) == page.value.items && Collected(server, n + 1) == Collected(server, n) + page.value.items
  {
  }

  lemma NothingSeen<T>(server: Server<T>)
    ensures LinkAt(server, 0) == Asking(None) && Seen(server, {}, 0)
  {
  }

  lemma SeenAt<T>(server: Server<T>, cursors: set<string>, n: nat, c: string) returns (i: nat)
    requires Seen(server, cursors, n) && c in cursors
    ensures 0 < i <= n && LinkAt(server, i) == Asking(Some(c))
  {
    hide LinkAt;
    i :| 0 < i <= n && LinkAt(server, i) == Asking(Some(c));
  }

  /** A cursor that has not been seen is none of the links so far. */
  lemma SeenOnce<T>(server: Server<T>, cursors: set<string>, n: nat, next: string)
    requires Seen(server, cursors, n) && next !in cursors && LinkAt(server, n + 1) == Asking(Some(next))
    ensures Outlasts(server, n + 1)
  {
    hide LinkAt;
    forall i: nat | i <= n ensures LinkAt(server, i) != LinkAt(server, n + 1) {}
  }

  lemma SeenStep<T>(server: Server<T>, cursors: set<string>, n: nat, next: string)
    requires Seen(server, cursors, n) && next !in cursors && LinkAt(server, n + 1) == Asking(Some(next))
    ensures Seen(server, cursors + {next}, n + 1)
  {
    hide LinkAt;
    SeenOnce(server, cursors, n, next);
    forall c | c in cursors + {next} ensures exists i: nat :: 0 < i <= n + 1 && LinkAt(server, i) == Asking(Some(c)) {
      if c in cursors {
        var i := SeenAt(server, cursors, n, c);
        assert 0 < i <= n + 1;
      }
    }
  }

  lemma SeenOutlasts<T>(server: Server<T>, cursors: set<string>, n: nat)
    requires Seen(server, cursors, n)
    ensures Outlasts(server, n)
    ensures forall universe: set<string> | CursorsIn(server, universe) :: n <= |universe|
  {
    hide LinkAt;
    forall universe: set<string> | CursorsIn(server, universe) ensures n <= |universe| {
      forall c | c in cursors ensures c in universe { var i := SeenAt(server, cursors, n, c); }
      CardinalityBound(cursors, universe);
    }
  }

  lemma Stops<T>(server: Server<T>, n: nat, budget: nat)
    requires n <= budget && !LinkAt(server, n).Asking?
    ensures !Outlasts(server, budget)
  {
    hide LinkAt;
  }

  lemma Repeats<T>(server: Server<T>, i: nat, n: nat, budget: nat)
    requires i < n <= budget && LinkAt(server, i) == LinkAt(server, n)
    ensures !Outlasts(server, budget)
  {
    hide LinkAt;
  }

  lemma CardinalityBound(small: set<string>, large: set<string>)
    requires small <= large
    ensures |small| <= |large|
  {
    if small != large {
      assert large == small + (large - small);
    }
  }

  lemma BrokenChain<T>(server: Server<T>, n: nat)
    requires LinkAt(server, n).Broken?
    ensures forall m :: !LinkAt(server, m).Ended?
  {
    forall m: nat ensures !LinkAt(server, m).Ended? {
      if LinkAt(server, m).Ended? {
        if m <= n { EndIsFinal(server, m, n); } else { EndIsFinal(server, n, m); }
      }
    }
  }

  lemma EndedChain<T>(server: Server<T>, n: nat)
    requires LinkAt(server, n).Ended?
    ensures forall m :: !LinkAt(server, m).Broken?
  {
    forall m: nat ensures !LinkAt(server, m).Broken? {
      if LinkAt(server, m).Broken? {
        if m <= n { EndIsFinal(server, m, n); } else { EndIsFinal(server, n, m); }
      }
    }
  }

  lemma EndlessChain<T>(server: Server<T>, i: nat, j: nat)
    requires i < j && LinkAt(server, i) == LinkAt(server, j) && LinkAt(server, j).Asking?
    ensures forall n :: LinkAt(server, n).Asking?
  {
    forall n: nat ensures LinkAt(server, n).Asking? { RepeatedNeverEnds(server, i, j, n); }
  }

  lemma {:induction false} CollectedIsFinal<T>(server: Server<T>, m: nat, n: nat)
    requires m <= n && !LinkAt(server, m).Asking?
    ensures Collected(server, n) == Collected(server, m)
  {
    if m < n {
      EndIsFinal(server, m, n - 1);
      CollectedIsFinal(server, m, n - 1);
    }
  }

  /** All the items of a chain that ends, and None for one that does not. */
  ghost function ChainItems<T>(server: Server<T>): Option<seq<T>> {
    if n: nat :| LinkAt(server, n).Ended? then Some(Collected(server, n)) else None
  }

  lemma ChainItemsIs<T>(server: Server<T>, n: nat)
    requires LinkAt(server, n).Ended?
    ensures ChainItems(server) == Some(Collected(server, n))
  {
    var m: nat :| LinkAt(server, m).Ended? && ChainItems(server) == Some(Collected(server, m));
    if m <= n { CollectedIsFinal(server, m, n); } else { CollectedIsFinal(server, n, m); }
  }

  lemma NoItems<T>(server: Server<T>)
    requires !exists n :: LinkAt(server, n).Ended?
    ensures ChainItems(server).None?
  {
  }
}
