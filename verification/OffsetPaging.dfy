/** Paging by offset, as EVS snapshots and SFS Turbo shares are listed: the token is the next offset in decimal. */
module OffsetPaging {
  import opened Division
  import opened GoInts
  import opened Wrappers

  // ---------- Tokens ----------

  function DigitChar(d: int): char
    requires 0 <= d < 10
  {
    '0' + d as char
  }

  function DigitValue(c: char): Option<int> {
    if '0' <= c <= '9' then Some(c as int - '0' as int) else None
  }

  /** Decimal text of a number that is not negative. */
  function Itoa(n: nat): (s: string)
    ensures s != []
  {
    if n < 10 then [DigitChar(n)] else Itoa(n / 10) + [DigitChar(n % 10)]
  }

  function Digits(s: string): Option<nat> {
    if s == [] then Some(0)
    else
      var front, last := Digits(s[..|s| - 1]), DigitValue(s[|s| - 1]);
      if front.None? || last.None? then None else Some(10 * front.value + last.value)
  }

  /** Text to a 64-bit number: a sign, digits, and no overflow. */
  function Atoi(s: string): Option<int> {
    var negative := s != [] && s[0] == '-';
    var digits := if s != [] && (s[0] == '-' || s[0] == '+') then s[1..] else s;
    if digits == [] then None
    else
      var n := Digits(digits);
      if n.None? then None
      else
        var value: int := if negative then -(n.value as int) else n.value as int;
        if -TWO63 <= value < TWO63 then Some(value) else None
  }

  /** Decimal digits, the highest first, without leading zeros. */
  lemma DecimalText(n: nat)
    ensures var digit: nat := n % 10;
            Itoa(n) == (if n < 10 then "" else Itoa(n / 10)) + ["0123456789"[digit]]
  {
    DigitIs(n % 10);
  }

  lemma DigitIs(d: int)
    requires 0 <= d < 10
    ensures DigitChar(d) == "0123456789"[d]
  {
  }

  /** Signs are read, and what is not a sign and digits, or does not fit 64 bits, is refused. */
  lemma AtoiExamples()
    ensures Atoi("7") == Some(7) && Atoi("-7") == Some(-7) && Atoi("+7") == Some(7)
    ensures Atoi("") == None && Atoi("-") == None && Atoi("a") == None && Atoi(" 7") == None
  {
    assert "-7"[1..] == "7" && "+7"[1..] == "7" && "-"[1..] == "";
    assert "7"[..0] == "" && "a"[..0] == "" && " 7"[..1] == " " && " "[..0] == "";
  }

  lemma {:induction false} DigitsInvertItoa(n: nat)
    ensures Digits(Itoa(n)) == Some(n)
    ensures DigitValue(Itoa(n)[0]).Some?
  {
    if n < 10 {
      assert [DigitChar(n)][..0] == [];
    } else {
      DigitsInvertItoa(n / 10);
      var s := Itoa(n);
      assert s[..|s| - 1] == Itoa(n / 10);
    }
  }

  /** Decimal text of any number. */
  function Print(n: int): string {
    if n < 0 then "-" + Itoa(-n) else Itoa(n)
  }

  /** Parsing a printed 64-bit number gives it back. */
  lemma AtoiInvertsPrint(n: int)
    requires Int64(n)
    ensures Atoi(Print(n)) == Some(n) && Print(n) != ""
  {
    var size: nat := if n < 0 then -n else n;
    var digits, s := Itoa(size), Print(n);
    DigitsInvertItoa(size);
    assert digits[0] != '-' && digits[0] != '+';
    if n < 0 {
      assert s[0] == '-' && s[1..] == digits;
    } else {
      assert s == digits;
    }
  }

  /** Text of a number that does not fit 64 bits is refused. */
  lemma AtoiRefuses(n: int)
    requires !Int64(n)
    ensures Atoi(Print(n)) == None
  {
    var size: nat := if n < 0 then -n else n;
    var digits, s := Itoa(size), Print(n);
    DigitsInvertItoa(size);
    assert digits[0] != '-' && digits[0] != '+';
    if n < 0 {
      assert s[0] == '-' && s[1..] == digits;
    } else {
      assert s == digits;
    }
  }

  /** A token that does not parse, as the empty one of a first page, stands for offset 0. */
  function OffsetOf(token: string): int {
    var parsed := Atoi(token);
    if parsed.None? then 0 else parsed.value
  }

  // ---------- One page ----------

  /** What the service answers: some entries, and how many there are in all. */
  datatype Listing<T> = Listing(entries: seq<T>, count: int)

  /** The service, asked for an offset and a limit; it may refuse, and fail. */
  type Service<!T> = (int, int) -> Option<Listing<T>>

  datatype Page<T> = Page(entries: seq<T>, nextToken: string)

  datatype Reply<T> = Listed(page: Page<T>) | InvalidArgument | Failed

  /** EVS snapshots pass any limit on, SFS Turbo refuses 0. Offsets and limits, negative ones too, are left to the
      service. The entries are those it answers with, and there is a token exactly if by its count entries are left;
      the token stands for the offset after the last entry. */
  method ListPage<T>(service: Service<T>, refusesZero: bool, token: string, maxEntries: int) returns (r: Reply<T>)
    ensures r.InvalidArgument? <==> refusesZero && maxEntries == 0
    ensures !r.InvalidArgument? ==> (r.Failed? <==> service(OffsetOf(token), maxEntries).None?)
    ensures r.Listed? ==>
              var listing := service(OffsetOf(token), maxEntries).value;
              var end := OffsetOf(token) + |listing.entries|;
              && r.page.entries == listing.entries
              && (r.page.nextToken == "" <==> end >= listing.count)
              && (r.page.nextToken != "" && Int64(end) ==> OffsetOf(r.page.nextToken) == end)
  {
    if refusesZero && maxEntries == 0 { return InvalidArgument; }
    var parsed := Atoi(token);
    var offset := 0;
    if parsed.Some? { offset := parsed.value; }
    var listing := service(offset, maxEntries);
    if listing.None? { return Failed; }
    var served := listing.value.entries;
    var entries := [];
    for k := 0 to |served|
      invariant entries == served[..k]
    {
      entries := entries + [served[k]];
    }
    var nextToken := "";
    var currentOffset := offset + |entries|;
    if currentOffset < listing.value.count {
      nextToken := Print(currentOffset);
      if Int64(currentOffset) { AtoiInvertsPrint(currentOffset); }
      assert nextToken != "";
    }
    r := Listed(Page(entries, nextToken));
  }

  /** A service with this list: for an offset that is not negative and a positive limit it answers with the entries
      from there on, as many as are asked for and are there. */
  ghost predicate Serves<T(!new)>(service: Service<T>, list: seq<T>) {
    forall offset: nat, limit: nat | limit > 0 :: service(offset, limit) == Some(Slice(list, offset, limit))
  }

  function Slice<T>(list: seq<T>, offset: nat, limit: nat): (listing: Listing<T>)
    ensures |listing.entries| <= limit && listing.count == |list|
    ensures offset + |listing.entries| < |list| ==> |listing.entries| == limit
    ensures if offset < |list| then offset + |listing.entries| <= |list|
                                    && listing.entries == list[offset..offset + |listing.entries|]
            else listing.entries == []
  {
    Listing(if offset >= |list| then []
            else list[offset..if offset + limit < |list| then offset + limit else |list|], |list|)
  }

  // ---------- Following the tokens ----------

  /** The entries from the offset on, as many as are asked for and are there; a token exactly if entries are left
      after them, and it stands for the offset of the first of those. */
  ghost predicate IsPage<T>(list: seq<T>, offset: nat, limit: nat, page: Page<T>) {
    var end := offset + |page.entries|;
    && |page.entries| <= limit
    && (end < |list| ==> |page.entries| == limit)
    && (if offset < |list| then end <= |list| && page.entries == list[offset..end] else page.entries == [])
    && (page.nextToken == "" <==> end >= |list|)
    && (page.nextToken != "" ==> OffsetOf(page.nextToken) == end)
  }

  /** What a caller gets from a service with this list. */
  method PageOf<T(!new)>(service: Service<T>, refusesZero: bool, ghost list: seq<T>, token: string, limit: nat)
    returns (page: Page<T>)
    requires Serves(service, list) && limit > 0 && |list| < TWO63 && OffsetOf(token) >= 0
    ensures IsPage(list, OffsetOf(token), limit, page)
  {
    ghost var slice := Slice(list, OffsetOf(token), limit);
    assert service(OffsetOf(token), limit) == Some(slice);
    var r := ListPage(service, refusesZero, token, limit);
    page := r.page;
  }

  /** The number of pages that n entries make; no entries make one empty page. */
  function Calls(n: nat, limit: nat): nat
    requires limit > 0
  {
    if n == 0 then 1 else (n + limit - 1) / limit
  }

  lemma OneCallLess(n: nat, limit: nat)
    requires limit > 0 && n > limit
    ensures Calls(n, limit) == 1 + Calls(n - limit, limit)
  {
    QuotientIsDivision(n + limit - 1, limit);
    QuotientIsDivision(n - 1, limit);
  }

  lemma LastCall(n: nat, limit: nat)
    requires limit > 0 && n <= limit
    ensures Calls(n, limit) == 1
  {
    if n > 0 { QuotientIsDivision(n + limit - 1, limit); }
  }

  /** A caller that starts without a token and goes on while it gets one sees every entry once, in order, in
      max(1, ceil(n/L)) calls. */
  method FollowTokens<T(!new)>(service: Service<T>, refusesZero: bool, ghost list: seq<T>, limit: nat)
    returns (got: seq<T>, calls: nat)
    requires Serves(service, list) && limit > 0 && |list| < TWO63
    ensures got == list
    ensures calls == Calls(|list|, limit)
  {
    var token := "";
    got, calls := [], 0;
    ghost var offset: nat := 0;
    while true
      invariant offset <= |list| && (offset == |list| ==> list == [])
      invariant OffsetOf(token) == offset && got == list[..offset]
      invariant calls + Calls(|list| - offset, limit) == Calls(|list|, limit)
      decreases |list| - offset
    {
      var page := PageOf(service, refusesZero, list, token, limit);
      got, calls := got + page.entries, calls + 1;
      token := page.nextToken;
      ghost var left := |list| - offset;
      if left > limit { OneCallLess(left, limit); } else { LastCall(left, limit); }
      offset := offset + |page.entries|;
      if token == "" { break; }
    }
    assert list[..|list|] == list;
  }
}
