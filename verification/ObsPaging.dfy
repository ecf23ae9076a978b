/** What a caller gets who follows the tokens of ListVolumes from the first page on. */
module ObsPaging {
  import opened Division
  import opened GoStrings
  import opened ObsListing
  import opened Sequences

  // ---------- Over an unchanged listing ----------

  ghost predicate Proper(names: seq<GoString>, i: int, j: int) {
    0 <= i <= j < |names| ==> names[i] != [] && (i < j ==> names[i] != names[j])
  }

  /** The names are distinct and not empty. */
  ghost predicate ProperNames(names: seq<GoString>) {
    forall i, j :: Proper(names, i, j)
  }

  lemma NextPageStartsAfter(names: seq<GoString>, token: GoString, limit: nat)
    requires ProperNames(names) && Reachable(names, token) && limit > 0
    requires |PageNames(names, token, limit)| == limit
    ensures var next := NextToken(PageNames(names, token, limit), limit);
            next != [] && Reachable(names, next) && After(names, next) == After(names, token) + limit
  {
    var i := After(names, token);
    var page := PageNames(names, token, limit);
    var last := i + limit - 1;
    assert page[limit - 1] == names[last];
    assert Proper(names, last, last);
    var next := names[last];
    assert Proper(names, After(names, next) - 1, last) && Proper(names, last, After(names, next) - 1);
  }

  /** The pages a caller sees who starts with this token and goes on while there is one. */
  ghost function FollowTokens(names: seq<GoString>, token: GoString, limit: nat): seq<seq<GoString>>
    requires ProperNames(names) && Reachable(names, token) && limit > 0
    decreases |names| - After(names, token)
  {
    var page := PageNames(names, token, limit);
    var next := NextToken(page, limit);
    if next == [] then [page]
    else
      NextPageStartsAfter(names, token, limit);
      [page] + FollowTokens(names, next, limit)
  }

  /** The pages as the listing is cut from position i on. */
  ghost function Cut(names: seq<GoString>, i: nat, limit: nat): seq<seq<GoString>>
    requires i <= |names| && limit > 0
    decreases |names| - i
  {
    if i + limit <= |names| then [names[i..i + limit]] + Cut(names, i + limit, limit) else [names[i..]]
  }

  /** Each token leads to where the last page ended. */
  lemma {:induction false} TokensCut(names: seq<GoString>, token: GoString, limit: nat)
    requires ProperNames(names) && Reachable(names, token) && limit > 0
    ensures FollowTokens(names, token, limit) == Cut(names, After(names, token), limit)
    decreases |names| - After(names, token)
  {
    var i, page := After(names, token), PageNames(names, token, limit);
    if i + limit <= |names| {
      assert page == names[i..i + limit];
      NextPageStartsAfter(names, token, limit);
      TokensCut(names, NextToken(page, limit), limit);
    } else {
      assert page == names[i..];
    }
  }

  lemma FlattenCons(page: seq<GoString>, rest: seq<seq<GoString>>)
    ensures Flatten([page] + rest) == page + Flatten(rest)
  {
    assert ([page] + rest)[1..] == rest;
  }

  lemma {:induction false} CutCovers(names: seq<GoString>, i: nat, limit: nat)
    requires i <= |names| && limit > 0
    ensures Flatten(Cut(names, i, limit)) == names[i..]
    ensures |Cut(names, i, limit)| == Quotient(|names| - i, limit) + 1
    decreases |names| - i
  {
    if i + limit <= |names| {
      CutCovers(names, i + limit, limit);
      FlattenCons(names[i..i + limit], Cut(names, i + limit, limit));
      SliceAndRest(names, i, i + limit);
    } else {
      FlattenCons(names[i..], []);
      assert names[i..] + Flatten<GoString>([]) == names[i..];
    }
  }

  lemma SliceAndRest(names: seq<GoString>, i: nat, j: nat)
    requires i <= j <= |names|
    ensures names[i..j] + names[j..] == names[i..]
  {
  }

  /** Over a listing that does not change, following the tokens gives every bucket once, in order, in exactly
      floor(n/L) + 1 calls: when L divides n the last page is empty. */
  lemma FollowingTokensListsAll(names: seq<GoString>, limit: nat)
    requires ProperNames(names) && limit > 0
    ensures Flatten(FollowTokens(names, [], limit)) == names
    ensures |FollowTokens(names, [], limit)| == |names| / limit + 1
  {
    TokensCut(names, [], limit);
    CutCovers(names, 0, limit);
    QuotientIsDivision(|names|, limit);
  }

  // ---------- While buckets come and go ----------

  /** Each call sees its own listing, sorted by name; the marker it carries is still there. The run is complete:
      only the last page has no next token. */
  ghost predicate Completes(listings: seq<seq<GoString>>, token: GoString, limit: nat)
    requires limit > 0
  {
    && listings != []
    && StrictlySorted(listings[0])
    && (forall i | 0 <= i < |listings[0]| :: listings[0][i] != [])
    && Reachable(listings[0], token)
    && var next := NextToken(PageNames(listings[0], token, limit), limit);
       if next == [] then |listings| == 1 else Completes(listings[1..], next, limit)
  }

  ghost function Returned(listings: seq<seq<GoString>>, token: GoString, limit: nat): seq<GoString>
    requires limit > 0 && Completes(listings, token, limit)
  {
    var page := PageNames(listings[0], token, limit);
    var next := NextToken(page, limit);
    if next == [] then page else page + Returned(listings[1..], next, limit)
  }

  /** A page is what is above its marker, from the smallest on; a full page leaves only names above its last. */
  lemma PageIsJustAbove(names: seq<GoString>, token: GoString, limit: nat)
    requires StrictlySorted(names) && (forall i | 0 <= i < |names| :: names[i] != [])
    requires Reachable(names, token) && limit > 0
    ensures var page := PageNames(names, token, limit);
            && StrictlySorted(page)
            && (forall name <- page :: Less(token, name))
            && (forall name <- names | Less(token, name) ::
                  name in page || (|page| == limit && Less(page[limit - 1], name)))
  {
    var i := After(names, token);
    var page := PageNames(names, token, limit);
    forall k | 0 <= k < |page| ensures Less(token, page[k]) {
      assert page[k] == names[i + k];
    }
    forall m | 0 <= m < |names| && Less(token, names[m])
      ensures names[m] in page || (|page| == limit && Less(page[limit - 1], names[m]))
    {
      if m < i {
        if m < i - 1 {
          LessTransitive(token, names[m], token);
        }
        LessIrreflexive(token);
        assert false;
      } else if m < i + limit {
        assert names[m] == page[m - i];
      }
    }
  }

  /** A sorted page followed by sorted names that are all above its last. */
  lemma PageThenRest(token: GoString, page: seq<GoString>, rest: seq<GoString>)
    requires page != [] && StrictlySorted(page) && StrictlySorted(rest)
    requires forall name <- page :: Less(token, name)
    requires forall name <- rest :: Less(page[|page| - 1], name)
    ensures StrictlySorted(page + rest) && forall name <- page + rest :: Less(token, name)
  {
    var got, last := page + rest, page[|page| - 1];
    assert last in page;
    forall name <- rest ensures Less(token, name) {
      LessTransitive(token, last, name);
    }
    forall i, j | 0 <= i < j < |got| ensures Less(got[i], got[j]) {
      if i < |page| <= j {
        assert got[j] in rest;
        if i < |page| - 1 { LessTransitive(page[i], last, got[j]); }
      }
    }
  }

  lemma {:induction false} MarkerRun(listings: seq<seq<GoString>>, token: GoString, limit: nat)
    requires limit > 0 && Completes(listings, token, limit)
    ensures var got := Returned(listings, token, limit);
            && StrictlySorted(got)
            && (forall name <- got :: Less(token, name))
            && (forall name | Less(token, name) && (forall names <- listings :: name in names) :: name in got)
  {
    var page := PageNames(listings[0], token, limit);
    var next := NextToken(page, limit);
    PageIsJustAbove(listings[0], token, limit);
    if next != [] {
      var rest := Returned(listings[1..], next, limit);
      MarkerRun(listings[1..], next, limit);
      PageThenRest(token, page, rest);
      forall name | Less(token, name) && (forall names <- listings :: name in names) ensures name in page + rest {
        assert name in listings[0] && forall names <- listings[1..] :: names in listings;
      }
    } else {
      if page != [] { assert page[|page| - 1] in listings[0]; }
      forall name | Less(token, name) && (forall names <- listings :: name in names) ensures name in page {
        assert name in listings[0];
      }
    }
  }

  /** Buckets may come and go between pages: as long as each marker is still there when it is used, no bucket is
      returned twice, and a bucket that was there all along is returned. */
  lemma PagingSurvivesChange(listings: seq<seq<GoString>>, limit: nat)
    requires limit > 0 && Completes(listings, [], limit)
    ensures var got := Returned(listings, [], limit);
            && (forall i, j | 0 <= i < j < |got| :: got[i] != got[j])
            && (forall name | forall names <- listings :: name in names :: name in got)
  {
    var got := Returned(listings, [], limit);
    MarkerRun(listings, [], limit);
    forall i, j | 0 <= i < j < |got| ensures got[i] != got[j] {
      LessIrreflexive(got[i]);
    }
    forall name | forall names <- listings :: name in names ensures name in got {
      assert name in listings[0];
    }
  }
}
