/** `paginate` of control/derive.ts, with numbers as reals and the cursor as the text the client sends back. */
module Pagination {
  import opened Wrappers
  import opened Decimal
  import opened Values
  import Text

  const DEFAULT_PAGE_SIZE := 25.0
  const MAX_PAGE_SIZE := 200.0

  datatype Page<T> = Page(items: seq<T>, total: nat, nextCursor: Option<string>)

  /** `String(x)` on numbers. */
  type Printer = real -> string

  /** From where on JavaScript prints numbers with an exponent. */
  const EXPONENTS_FROM := 1_000_000_000_000_000_000_000.0

  /** Numbers from one up to the exponents are printed with their whole part first and a point before any fraction. */
  ghost predicate PrintsNumbers(show: Printer)
  {
    forall x :: PrintsAt(show, x)
  }

  ghost predicate PrintsAt(show: Printer, x: real)
  {
    1.0 <= x < EXPONENTS_FROM ==> Printed(show(x), x.Floor)
  }

  /** The length of an array is below 2 to the power of 32. */
  predicate FitsArray<T>(items: seq<T>)
  {
    |items| < 0x1_0000_0000
  }

  ghost predicate Printed(s: string, whole: int)
  {
    whole >= 0 && Digits(whole) <= s && (|s| > |Digits(whole)| ==> s[|Digits(whole)|] == '.')
  }

  /** `Math.max(0, Number.parseInt(cursor, 10) || 0)`, and 0 for no cursor or an empty one. */
  function OffsetOf(cursor: Option<string>): nat
  {
    if cursor.None? then 0
    else
      var s := Text.TrimStart(cursor.value);
      if s == "" || s[0] == '-' then 0
      else ValueOf(DigitPrefix(if s[0] == '+' then s[1..] else s))
  }

  /** The page size for a limit that may be absent, not finite or not positive. */
  function SizeOf(limit: Option<Number>): (size: real)
    ensures 0.0 < size <= MAX_PAGE_SIZE
  {
    var requested :=
      if limit.Some? && limit.value.Finite? && limit.value.r > 0.0 then limit.value.r else DEFAULT_PAGE_SIZE;
    if requested < MAX_PAGE_SIZE then requested else MAX_PAGE_SIZE
  }

  /** `items.slice(start, end)` for bounds that are not negative; a fraction of a bound is dropped. */
  function Slice<T>(items: seq<T>, start: nat, end: real): seq<T>
    requires end >= start as real
  {
    var last := if end.Floor < |items| then end.Floor else |items|;
    if start >= last then [] else items[start..last]
  }

  function Paginate<T>(items: seq<T>, limit: Option<Number>, cursor: Option<string>, show: Printer): (page: Page<T>)
    ensures |page.items| <= 200 && page.total == |items|
  {
    var size := SizeOf(limit);
    var start := OffsetOf(cursor);
    var next := start as real + size;
    Page(Slice(items, start, next), |items|, if next < |items| as real then Some(show(next)) else None)
  }

  // ----- the cursor ---------------------------------------------------------

  /** The text of a number reads back as its whole part. */
  lemma CursorRoundTrip(s: string, whole: nat)
    requires Printed(s, whole)
    ensures OffsetOf(Some(s)) == whole
  {
    var digits := Digits(whole);
    assert s[0] == digits[0];
    assert Text.TrimStart(s) == s;
    var rest := s[|digits|..];
    assert s == digits + rest;
    DigitPrefixOf(digits, rest);
    ValueOfDigits(whole);
  }

  /** A sign and white space may stand in front, and anything but a digit behind; below zero the list starts over. */
  lemma CursorRead(n: nat, blank: string, rest: string)
    requires Text.AllSpace(blank) && (rest == "" || !IsDigit(rest[0]))
    ensures OffsetOf(Some(blank + (Digits(n) + rest))) == n
    ensures OffsetOf(Some(blank + ("+" + (Digits(n) + rest)))) == n
    ensures OffsetOf(Some(blank + ("-" + (Digits(n) + rest)))) == 0
  {
    var text := Digits(n) + rest;
    PrefixRead(n, rest);
    PaddedOffset(blank, text);
    FrontSign('+', text);
    FrontSign('-', text);
    PaddedOffset(blank, ['+'] + text);
    PaddedOffset(blank, ['-'] + text);
    hide *;
  }

  lemma FrontSign(sign: char, text: string)
    ensures ([sign] + text)[0] == sign && ([sign] + text)[1..] == text
  {
  }

  lemma PaddedOffset(blank: string, s: string)
    requires Text.AllSpace(blank) && s != "" && !Text.IsSpace(s[0])
    ensures OffsetOf(Some(blank + s))
              == if s[0] == '-' then 0 else ValueOf(DigitPrefix(if s[0] == '+' then s[1..] else s))
  {
    Text.TrimStartPadded(blank, s);
    hide Text.TrimStart, DigitPrefix, ValueOf;
  }

  lemma PrefixRead(n: nat, rest: string)
    requires rest == "" || !IsDigit(rest[0])
    ensures Digits(n) + rest != "" && (Digits(n) + rest)[0] == Digits(n)[0]
    ensures ValueOf(DigitPrefix(Digits(n) + rest)) == n
  {
    DigitPrefixOf(Digits(n), rest);
    ValueOfDigits(n);
  }

  lemma FloorAdd(n: nat, x: real)
    requires 0.0 <= x
    ensures (n as real + x).Floor == n + x.Floor
  {
  }

  lemma FloorBelow(x: real, n: nat)
    ensures x < n as real <==> x.Floor < n
  {
  }

  lemma SliceIs<T>(items: seq<T>, start: nat, next: real, end: nat)
    requires next >= start as real && next.Floor == end
    ensures start <= end
    ensures Slice(items, start, next)
              == if start >= |items| then [] else if end < |items| then items[start..end] else items[start..]
  {
  }

  /** A page in terms of whole offsets. */
  lemma PageIs<T>(items: seq<T>, limit: Option<Number>, cursor: Option<string>, show: Printer)
    ensures var page := Paginate(items, limit, cursor, show);
            var start, end := OffsetOf(cursor), OffsetOf(cursor) + SizeOf(limit).Floor;
            && (page.nextCursor.Some? <==> end < |items|)
            && page.items == (if start >= |items| then []
                              else if end < |items| then items[start..end] else items[start..])
            && (page.nextCursor.Some? ==> page.nextCursor.value == show(start as real + SizeOf(limit)))
  {
    hide OffsetOf, SizeOf, Slice;
    var start, size := OffsetOf(cursor), SizeOf(limit);
    FloorAdd(start, size);
    FloorBelow(start as real + size, |items|);
    SliceIs(items, start, start as real + size, start + size.Floor);
  }

  /** A cursor from one on reads back as the whole part of the offset. */
  lemma NextOffset<T>(items: seq<T>, limit: Option<Number>, cursor: Option<string>, show: Printer)
    requires PrintsNumbers(show) && FitsArray(items) && OffsetOf(cursor) as real + SizeOf(limit) >= 1.0
    ensures var page := Paginate(items, limit, cursor, show);
            page.nextCursor.Some? ==> OffsetOf(page.nextCursor) == OffsetOf(cursor) + SizeOf(limit).Floor
  {
    hide Paginate, OffsetOf, SizeOf;
    PageIs(items, limit, cursor, show);
    if Paginate(items, limit, cursor, show).nextCursor.Some? {
      ShownOffset(OffsetOf(cursor), SizeOf(limit), show, |items|);
    }
  }

  lemma ShownOffset(start: nat, size: real, show: Printer, n: nat)
    requires PrintsNumbers(show) && 0.0 < size && start as real + size >= 1.0
    requires start + size.Floor < n < 0x1_0000_0000
    ensures OffsetOf(Some(show(start as real + size))) == start + size.Floor
  {
    var next := start as real + size;
    FloorAdd(start, size);
    assert PrintsAt(show, next);
    CursorRoundTrip(show(next), next.Floor);
  }

  /** The page size: what was asked for, at most 200; 25 when nothing, or nothing positive, was asked for. */
  lemma SizeIs(limit: Option<Number>, n: nat)
    ensures 1 <= n <= 200 ==> SizeOf(Some(Finite(n as real))) == n as real
    ensures n > 200 ==> SizeOf(Some(Finite(n as real))) == 200.0
    ensures limit.None? || !limit.value.Finite? || limit.value.r <= 0.0 ==> SizeOf(limit) == 25.0
  {
  }

  /** A page that is not the last holds as many items as were asked for. */
  lemma FullPage<T>(items: seq<T>, n: nat, cursor: Option<string>, show: Printer)
    requires 1 <= n <= 200 && OffsetOf(cursor) + n <= |items|
    ensures Paginate(items, Some(Finite(n as real)), cursor, show).items
              == items[OffsetOf(cursor)..OffsetOf(cursor) + n]
  {
    var start := OffsetOf(cursor);
    SizeIs(None, n);
    PageIs(items, Some(Finite(n as real)), cursor, show);
    assert start + n == |items| ==> items[start..] == items[start..start + n];
  }

  // ----- following the cursor -----------------------------------------------

  /** All the items from a cursor on, as a client collects them page by page. */
  ghost function Walk<T>(items: seq<T>, limit: Option<Number>, cursor: Option<string>, show: Printer): seq<T>
    requires PrintsNumbers(show) && FitsArray(items) && SizeOf(limit) >= 1.0
    decreases |items| - OffsetOf(cursor)
  {
    var page := Paginate(items, limit, cursor, show);
    NextOffset(items, limit, cursor, show);
    page.items + if page.nextCursor.None? then [] else Walk(items, limit, page.nextCursor, show)
  }

  ghost function From<T>(items: seq<T>, start: nat): seq<T>
  {
    if start < |items| then items[start..] else []
  }

  /** The walk ends, and the pages are the items from the cursor on, none missing and none twice. */
  lemma {:induction false} WalkFrom<T>(items: seq<T>, limit: Option<Number>, cursor: Option<string>, show: Printer)
    requires PrintsNumbers(show) && FitsArray(items) && SizeOf(limit) >= 1.0
    ensures Walk(items, limit, cursor, show) == From(items, OffsetOf(cursor))
    decreases |items| - OffsetOf(cursor)
  {
    hide Paginate, OffsetOf, SizeOf;
    var page := Paginate(items, limit, cursor, show);
    PageIs(items, limit, cursor, show);
    if page.nextCursor.Some? {
      NextOffset(items, limit, cursor, show);
      WalkFrom(items, limit, page.nextCursor, show);
      TwoParts(items, OffsetOf(cursor), OffsetOf(page.nextCursor));
    }
  }

  lemma TwoParts<T>(items: seq<T>, start: nat, end: nat)
    requires start <= end < |items|
    ensures items[start..end] + items[end..] == items[start..]
  {
  }

  /** From the first page on: the whole list. */
  lemma WalkIsAll<T>(items: seq<T>, limit: Option<Number>, show: Printer)
    requires PrintsNumbers(show) && FitsArray(items) && SizeOf(limit) >= 1.0
    ensures Walk(items, limit, None, show) == items
  {
    WalkFrom(items, limit, None, show);
  }

  // ----- every page size ----------------------------------------------------

  /** Where a size below one leads from the start: to 0, or for sizes printed with an exponent to their first digit. */
  function FirstOffset(limit: Option<Number>, show: Printer): nat
  {
    OffsetOf(Some(show(SizeOf(limit))))
  }

  /** A page that is not the last leads on exactly when an item fits on it, or from the start by a misread cursor. */
  lemma AdvancesIff<T>(items: seq<T>, limit: Option<Number>, cursor: Option<string>, show: Printer)
    requires PrintsNumbers(show) && FitsArray(items) && Paginate(items, limit, cursor, show).nextCursor.Some?
    ensures OffsetOf(Paginate(items, limit, cursor, show).nextCursor) > OffsetOf(cursor)
            <==> SizeOf(limit) >= 1.0 || (OffsetOf(cursor) == 0 && FirstOffset(limit, show) > 0)
  {
    PageIs(items, limit, cursor, show);
    BelowOneIff(SizeOf(limit));
    if OffsetOf(cursor) > 0 || SizeOf(limit) >= 1.0 {
      NextOffset(items, limit, cursor, show);
    } else {
      assert OffsetOf(cursor) as real + SizeOf(limit) == SizeOf(limit);
    }
  }

  lemma BelowOneIff(x: real)
    requires 0.0 < x
    ensures x < 1.0 <==> x.Floor == 0
  {
  }

  /** The cursor after `n` pages. */
  function CursorAfter<T>(items: seq<T>, limit: Option<Number>, show: Printer, n: nat): Option<string>
  {
    if n == 0 then None
    else
      var before := CursorAfter(items, limit, show, n - 1);
      if n > 1 && before.None? then None
      else Paginate(items, limit, before, show).nextCursor
  }

  /** The items of the first `n` pages; there is none behind a page without a cursor. */
  function Collected<T>(items: seq<T>, limit: Option<Number>, show: Printer, n: nat): seq<T>
  {
    if n == 0 then []
    else
      var before := CursorAfter(items, limit, show, n - 1);
      Collected(items, limit, show, n - 1)
      + if n > 1 && before.None? then [] else Paginate(items, limit, before, show).items
  }

  /** Below one every page is empty, whatever the cursor. */
  lemma EmptyBelowOne<T>(items: seq<T>, limit: Option<Number>, cursor: Option<string>, show: Printer)
    requires SizeOf(limit) < 1.0
    ensures Paginate(items, limit, cursor, show).items == []
    ensures Paginate(items, limit, cursor, show).nextCursor.Some? <==> OffsetOf(cursor) < |items|
  {
    BelowOneIff(SizeOf(limit));
    PageIs(items, limit, cursor, show);
  }

  lemma {:induction false} NothingCollected<T>(items: seq<T>, limit: Option<Number>, show: Printer, n: nat)
    requires SizeOf(limit) < 1.0
    ensures Collected(items, limit, show, n) == []
  {
    if n > 0 {
      NothingCollected(items, limit, show, n - 1);
      EmptyBelowOne(items, limit, CursorAfter(items, limit, show, n - 1), show);
    }
  }

  /** How far the client has got: everything, or everything before the offset of the cursor. */
  ghost predicate GotTo<T>(items: seq<T>, limit: Option<Number>, show: Printer, n: nat)
  {
    var cursor := CursorAfter(items, limit, show, n);
    if n > 0 && cursor.None? then Collected(items, limit, show, n) == items
    else n <= OffsetOf(cursor) <= |items| && Collected(items, limit, show, n) == items[..OffsetOf(cursor)]
  }

  lemma NextPageCollected<T>(items: seq<T>, limit: Option<Number>, show: Printer, n: nat)
    requires PrintsNumbers(show) && FitsArray(items) && SizeOf(limit) >= 1.0
    requires GotTo(items, limit, show, n) && (n == 0 || CursorAfter(items, limit, show, n).Some?)
    ensures GotTo(items, limit, show, n + 1)
  {
    hide Paginate, OffsetOf, SizeOf;
    var cursor := CursorAfter(items, limit, show, n);
    var start, end := OffsetOf(cursor), OffsetOf(cursor) + SizeOf(limit).Floor;
    BelowOneIff(SizeOf(limit));
    PageIs(items, limit, cursor, show);
    NextOffset(items, limit, cursor, show);
    if start < |items| {
      if end < |items| {
        TwoPartsUpTo(items, start, end);
      } else {
        TwoPartsUpTo(items, start, |items|);
      }
    }
  }

  lemma TwoPartsUpTo<T>(items: seq<T>, start: nat, end: nat)
    requires start <= end <= |items|
    ensures items[..start] + items[start..end] == items[..end]
    ensures items[start..|items|] == items[start..] && items[..|items|] == items
  {
  }

  lemma StartsAtZero<T>(items: seq<T>)
    ensures OffsetOf(None) == 0 && items[..0] == []
  {
  }

  lemma {:induction false} CollectedUpTo<T>(items: seq<T>, limit: Option<Number>, show: Printer, n: nat)
    requires PrintsNumbers(show) && FitsArray(items) && SizeOf(limit) >= 1.0
    ensures GotTo(items, limit, show, n)
  {
    hide Paginate, OffsetOf, SizeOf;
    if n > 0 {
      CollectedUpTo(items, limit, show, n - 1);
      if n == 1 || CursorAfter(items, limit, show, n - 1).Some? {
        NextPageCollected(items, limit, show, n - 1);
      }
    } else {
      StartsAtZero(items);
    }
  }

  /** Some number of pages yields the whole list. */
  ghost predicate YieldsAll<T(!new)>(items: seq<T>, limit: Option<Number>, show: Printer)
  {
    exists n :: Collected(items, limit, show, n) == items
  }

  /** For every list and every page size: the pages yield the list exactly when an item fits on a page. */
  lemma YieldsAllIff<T(!new)>(items: seq<T>, limit: Option<Number>, show: Printer)
    requires PrintsNumbers(show) && FitsArray(items)
    ensures YieldsAll(items, limit, show) <==> SizeOf(limit) >= 1.0 || items == []
  {
    if SizeOf(limit) >= 1.0 {
      CollectedUpTo(items, limit, show, |items| + 1);
      assert Collected(items, limit, show, |items| + 1) == items;
    } else {
      forall n ensures Collected(items, limit, show, n) == [] {
        NothingCollected(items, limit, show, n);
      }
      if items == [] {
        assert Collected(items, limit, show, 0) == items;
      }
    }
  }

  /**
   * Below one the client never comes to an end, or comes to it empty-handed: from the first page on every page has a
   * successor at the same offset, unless the first cursor is misread as an offset beyond the list.
   */
  lemma {:induction false} StuckBelowOne<T>(items: seq<T>, limit: Option<Number>, show: Printer, n: nat)
    requires PrintsNumbers(show) && FitsArray(items) && SizeOf(limit) < 1.0 && items != [] && n > 0
    ensures var cursor := CursorAfter(items, limit, show, n);
            if n == 1 || FirstOffset(limit, show) < |items| then
              cursor.Some? && OffsetOf(cursor) == FirstOffset(limit, show)
            else cursor.None?
  {
    hide Paginate, OffsetOf, SizeOf;
    StartsAtZero(items);
    var before := CursorAfter(items, limit, show, n - 1);
    if n > 1 {
      StuckBelowOne(items, limit, show, n - 1);
    }
    EmptyBelowOne(items, limit, before, show);
    PageIs(items, limit, before, show);
    BelowOneIff(SizeOf(limit));
    if OffsetOf(before) > 0 {
      NextOffset(items, limit, before, show);
    } else {
      assert OffsetOf(before) as real + SizeOf(limit) == SizeOf(limit);
    }
  }

  /** Sizes that are printed without an exponent lead nowhere: the client asks for the first page for ever. */
  lemma PlainSizesStayAtStart(limit: Option<Number>, show: Printer)
    requires SizeOf(limit) < 1.0 && Printed(show(SizeOf(limit)), 0)
    ensures FirstOffset(limit, show) == 0
  {
    CursorRoundTrip(show(SizeOf(limit)), 0);
  }
}
