/**
 * The LIMIT/OFFSET tail appended to list queries
 * (internal/service/repo/postgresSQL/helper.go), and how the database reads it.
 */
module QueryHelper {

  predicate IsDigit(c: char) { '0' <= c <= '9' }

  predicate AllDigits(s: string) { forall i :: 0 <= i < |s| ==> IsDigit(s[i]) }

  function DigitChar(d: nat): (c: char)
    requires d < 10
    ensures IsDigit(c)
  {
    ('0' as int + d) as char
  }

  function DigitValue(c: char): (d: nat)
    requires IsDigit(c)
    ensures d < 10
  {
    c as int - '0' as int
  }

  /** `fmt.Sprintf("%d", n)` for a non-negative n. */
  function Decimal(n: nat): (s: string)
    ensures |s| >= 1 && AllDigits(s)
  {
    if n < 10 then [DigitChar(n)] else Decimal(n / 10) + [DigitChar(n % 10)]
  }

  /** The value of a string of decimal digits. */
  function ParseDecimal(s: string): nat
    requires AllDigits(s)
  {
    if s == [] then 0 else 10 * ParseDecimal(s[..|s| - 1]) + DigitValue(s[|s| - 1])
  }

  lemma {:induction false} DecimalRoundTrip(n: nat)
    ensures ParseDecimal(Decimal(n)) == n
  {
    if n >= 10 {
      var s := Decimal(n);
      assert s[..|s| - 1] == Decimal(n / 10);
      DecimalRoundTrip(n / 10);
    }
  }

  const LimitKeyword := " LIMIT "
  const OffsetKeyword := " OFFSET "

  predicate HasPrefix(s: string, p: string) { |p| <= |s| && s[..|p|] == p }

  /**
   * getLimitAndOffset: " LIMIT n" when limit is positive, then " OFFSET m"
   * when offset is positive; a non-positive value contributes nothing.
   */
  function LimitAndOffset(limit: int, offset: int): (q: string)
    ensures q == "" <==> limit <= 0 && offset <= 0
    ensures limit > 0 ==> HasPrefix(q, LimitKeyword)
    ensures limit <= 0 && offset > 0 ==> HasPrefix(q, OffsetKeyword)
  {
    var limitQ := if limit > 0 then LimitKeyword + Decimal(limit) else "";
    var offsetQ := if offset > 0 then OffsetKeyword + Decimal(offset) else "";
    assert limit > 0 ==> (limitQ + offsetQ)[..|LimitKeyword|] == LimitKeyword;
    assert limit <= 0 && offset > 0 ==> (limitQ + offsetQ)[..|OffsetKeyword|] == OffsetKeyword;
    limitQ + offsetQ
  }

  /** The length of the run of digits at the front of s. */
  function DigitRun(s: string): (n: nat)
    ensures n <= |s| && AllDigits(s[..n])
    ensures n < |s| ==> !IsDigit(s[n])
  {
    if s == [] || !IsDigit(s[0]) then 0
    else
      var m := DigitRun(s[1..]);
      assert s[..1 + m] == [s[0]] + s[1..][..m];
      1 + m
  }

  /** The offset an " OFFSET m" clause names, 0 when there is none. */
  function ParseOffset(q: string): nat
  {
    if HasPrefix(q, OffsetKeyword) && AllDigits(q[|OffsetKeyword|..])
    then ParseDecimal(q[|OffsetKeyword|..])
    else 0
  }

  /**
   * How the database reads a query tail: the limit and the offset it names,
   * 0 for one that is absent (no restriction).
   */
  function ParseClause(q: string): (int, int)
  {
    if HasPrefix(q, LimitKeyword) then
      var rest := q[|LimitKeyword|..];
      var n := DigitRun(rest);
      (ParseDecimal(rest[..n]), ParseOffset(rest[n..]))
    else
      (0, ParseOffset(q))
  }

  /** A value that means "no restriction" when it is not positive. */
  function Clamp(n: int): nat { if n > 0 then n else 0 }

  lemma {:induction false} DigitRunStops(d: string, rest: string)
    requires AllDigits(d)
    requires rest == [] || !IsDigit(rest[0])
    ensures DigitRun(d + rest) == |d|
  {
    if d != [] {
      assert (d + rest)[1..] == d[1..] + rest;
      DigitRunStops(d[1..], rest);
    }
  }

  lemma OffsetRoundTrip(offset: int)
    ensures ParseOffset(if offset > 0 then OffsetKeyword + Decimal(offset) else "") == Clamp(offset)
  {
    if offset > 0 {
      var q := OffsetKeyword + Decimal(offset);
      assert q[|OffsetKeyword|..] == Decimal(offset);
      DecimalRoundTrip(offset);
    }
  }

  /**
   * The tail names exactly the positive limit and offset it was built from,
   * the LIMIT part first.
   */
  lemma ClauseRoundTrip(limit: int, offset: int)
    ensures ParseClause(LimitAndOffset(limit, offset)) == (Clamp(limit), Clamp(offset))
  {
    var offsetQ := if offset > 0 then OffsetKeyword + Decimal(offset) else "";
    OffsetRoundTrip(offset);
    var q := LimitAndOffset(limit, offset);
    if limit > 0 {
      var d := Decimal(limit);
      assert q == LimitKeyword + (d + offsetQ);
      assert q[|LimitKeyword|..] == d + offsetQ;
      DigitRunStops(d, offsetQ);
      assert (d + offsetQ)[..|d|] == d;
      assert (d + offsetQ)[|d|..] == offsetQ;
      DecimalRoundTrip(limit);
    } else {
      assert q == offsetQ;
      if offset > 0 {
        assert q[1] == 'O';
      }
    }
  }

  /**
   * What LIMIT and OFFSET select from the rows a query produces: skip the
   * first `offset` rows, then keep at most `limit`; a non-positive value
   * restricts nothing.
   */
  function Page<T>(rows: seq<T>, limit: int, offset: int): (r: seq<T>)
    ensures limit <= 0 && offset <= 0 ==> r == rows
    ensures limit > 0 ==> |r| <= limit
    ensures forall x :: x in r ==> x in rows
    ensures offset <= 0 ==> |r| <= |rows| && r == rows[..|r|]
    ensures 0 < offset < |rows| ==> |r| <= |rows| - offset && r == rows[offset..offset + |r|]
    ensures offset >= |rows| ==> r == []
    ensures limit <= 0 && 0 < offset < |rows| ==> r == rows[offset..]
    ensures limit > 0 && offset <= 0 ==> |r| == (if limit < |rows| then limit else |rows|)
    ensures limit > 0 && 0 < offset < |rows| ==> |r| == (if limit < |rows| - offset then limit else |rows| - offset)
  {
    var skipped := if offset <= 0 then rows else if offset >= |rows| then [] else rows[offset..];
    if limit > 0 && limit < |skipped| then skipped[..limit] else skipped
  }

  /** The rows a list query returns when its tail is `clause`. */
  function Paged<T>(rows: seq<T>, clause: string): seq<T>
  {
    var (limit, offset) := ParseClause(clause);
    Page(rows, limit, offset)
  }

  /**
   * A query whose tail is built by getLimitAndOffset returns the page its
   * arguments ask for.
   */
  lemma PagedByHelper<T>(rows: seq<T>, limit: int, offset: int)
    ensures Paged(rows, LimitAndOffset(limit, offset)) == Page(rows, limit, offset)
  {
    ClauseRoundTrip(limit, offset);
  }
}
