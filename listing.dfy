/** The listing endpoint of the web application
    (`web/app/api/downloads/route.ts`): the `limit` query parameter clamped
    to 1..200, and the newest rows of the `downloads` table up to that
    limit. */
module Listing {
  import opened Wrappers
  import opened Text
  import opened Queue

  const DefaultLimit := 50
  const MaxLimit := 200

  predicate IsDigit(c: char) {
    '0' <= c <= '9'
  }

  function DigitValue(c: char): nat
    requires IsDigit(c)
  {
    (c as int - '0' as int) as nat
  }

  /** Number of leading decimal digits. */
  function DigitRun(s: string): (n: nat)
    ensures n <= |s|
    ensures forall k :: 0 <= k < n ==> IsDigit(s[k])
    ensures n < |s| ==> !IsDigit(s[n])
  {
    if s != [] && IsDigit(s[0]) then 1 + DigitRun(s[1..]) else 0
  }

  /** The value of a string of decimal digits, most significant first. */
  function DigitsValue(d: string): nat
    requires forall k :: 0 <= k < |d| ==> IsDigit(d[k])
  {
    if d == [] then 0 else 10 * DigitsValue(d[..|d| - 1]) + DigitValue(d[|d| - 1])
  }

  /** What follows an optional leading sign. */
  function AfterSign(t: string): (u: string)
    ensures |u| <= |t|
  {
    if t != [] && (t[0] == '+' || t[0] == '-') then t[1..] else t
  }

  /** `Number.parseInt(value, 10)` with `NaN` as `None`: leading whitespace
      is skipped, one sign is taken, and the longest run of digits that
      follows is read; without a digit there is no number. */
  function ParseInt10(s: string): (r: Option<int>)
    ensures r.None? <==> var u := AfterSign(TrimStart(s)); u == [] || !IsDigit(u[0])
    ensures r.Some? && r.value < 0 ==> TrimStart(s)[0] == '-'
  {
    var t := TrimStart(s);
    match LeadingNumber(AfterSign(t))
    case None => None
    case Some(v) => var x: int := v; Some(if t[0] == '-' then -x else x)
  }

  /** The value of the leading run of digits, when there is one. */
  function LeadingNumber(u: string): (r: Option<nat>)
    ensures r.None? <==> u == [] || !IsDigit(u[0])
  {
    var n := DigitRun(u);
    if n == 0 then None else Some(DigitsValue(u[..n]))
  }

  /** The decimal numeral of `n`, without sign or leading zeros. */
  function Decimal(n: nat): (d: string)
    ensures d != [] && forall k :: 0 <= k < |d| ==> IsDigit(d[k])
  {
    if n < 10 then [('0' as int + n) as char]
    else Decimal(n / 10) + [('0' as int + n % 10) as char]
  }

  /** Reading a numeral back gives the number. */
  lemma {:induction false} DecimalValue(n: nat)
    ensures DigitsValue(Decimal(n)) == n
  {
    if n >= 10 {
      DecimalValue(n / 10);
      var d := Decimal(n);
      assert d[..|d| - 1] == Decimal(n / 10);
    }
  }

  /** A string made of digits only is one digit run. */
  lemma {:induction false} DigitRunAll(d: string)
    requires forall k :: 0 <= k < |d| ==> IsDigit(d[k])
    ensures DigitRun(d) == |d| && d[..DigitRun(d)] == d
  {
    if d != [] {
      DigitRunAll(d[1..]);
    }
    assert d[..|d|] == d;
  }

  /** `parseInt` reads back the numeral of any natural number. */
  lemma ParseDecimal(n: nat)
    ensures ParseInt10(Decimal(n)) == Some(n)
  {
    ParseDigits(Decimal(n));
    DecimalValue(n);
  }

  /** `parseInt` reads a non-empty string of digits as its value. */
  lemma ParseDigits(d: string)
    requires d != [] && forall k :: 0 <= k < |d| ==> IsDigit(d[k])
    ensures ParseInt10(d) == Some(DigitsValue(d))
  {
    ParseUnsigned(d);
    LeadingNumberAll(d);
  }

  /** A string that starts with a digit is read as its leading number. */
  lemma ParseUnsigned(u: string)
    requires u != [] && IsDigit(u[0])
    ensures LeadingNumber(u).Some? && ParseInt10(u) == Some(LeadingNumber(u).value)
  {
    TrimStartOfTrimmed(u);
    assert AfterSign(u) == u;
  }

  /** A string of digits is read whole. */
  lemma LeadingNumberAll(d: string)
    requires d != [] && forall k :: 0 <= k < |d| ==> IsDigit(d[k])
    ensures LeadingNumber(d) == Some(DigitsValue(d))
  {
    DigitRunAll(d);
  }

  /** `normalizeLimit`: 50 for an absent, empty, unreadable or non-positive
      value; otherwise the number read, capped at 200. */
  function NormalizeLimit(value: Option<string>): (r: int)
    ensures 1 <= r <= MaxLimit
    ensures value.None? || value == Some("") ==> r == DefaultLimit
    ensures value.Some? && value.value != "" ==>
              match ParseInt10(value.value)
              case None => r == DefaultLimit
              case Some(p) => r == if p <= 0 then DefaultLimit else if p <= MaxLimit then p else MaxLimit
  {
    if value.None? || value.value == "" then DefaultLimit
    else
      match ParseInt10(value.value)
      case None => DefaultLimit
      case Some(parsed) => if parsed <= 0 then DefaultLimit else if parsed < MaxLimit then parsed else MaxLimit
  }

  /** A limit written as a plain numeral between 1 and 200 is taken as is. */
  lemma NormalizeLimitNumeral(n: nat)
    requires 1 <= n <= MaxLimit
    ensures NormalizeLimit(Some(Decimal(n))) == n
  {
    ParseDecimal(n);
  }

  /** Rows ordered newest first. */
  predicate NewestFirst(rows: seq<Row>) {
    forall i, j :: 0 <= i < j < |rows| ==> rows[i].createdAt >= rows[j].createdAt
  }

  /** A row no older than any of a newest-first list may go in front. */
  lemma NewestFirstCons(row: Row, rows: seq<Row>)
    requires NewestFirst(rows)
    requires forall k :: 0 <= k < |rows| ==> row.createdAt >= rows[k].createdAt
    ensures NewestFirst([row] + rows)
  {
    var r := [row] + rows;
    forall i, j | 0 <= i < j < |r| ensures r[i].createdAt >= r[j].createdAt {
      assert r[j] == rows[j - 1];
      if i > 0 {
        assert r[i] == rows[i - 1];
      }
    }
  }

  /** Places `row` before the first row older than it. */
  function InsertByAge(row: Row, sorted: seq<Row>): (r: seq<Row>)
    requires NewestFirst(sorted)
    ensures NewestFirst(r) && multiset(r) == multiset(sorted) + multiset{row}
  {
    if sorted == [] then [row]
    else if row.createdAt >= sorted[0].createdAt then
      NewestFirstCons(row, sorted);
      [row] + sorted
    else
      var rest := InsertByAge(row, sorted[1..]);
      assert sorted == [sorted[0]] + sorted[1..];
      assert forall k :: 0 <= k < |rest| ==> sorted[0].createdAt >= rest[k].createdAt by {
        forall k | 0 <= k < |rest| ensures sorted[0].createdAt >= rest[k].createdAt {
          assert rest[k] in multiset(rest);
          assert rest[k] in multiset(sorted[1..]) + multiset{row};
        }
      }
      NewestFirstCons(sorted[0], rest);
      [sorted[0]] + rest
  }

  /** The table's rows, newest first. */
  function SortNewestFirst(rows: seq<Row>): (r: seq<Row>)
    ensures NewestFirst(r) && multiset(r) == multiset(rows)
  {
    if rows == [] then []
    else
      assert rows == rows[..|rows| - 1] + [rows[|rows| - 1]];
      InsertByAge(rows[|rows| - 1], SortNewestFirst(rows[..|rows| - 1]))
  }

  /** `SELECT … FROM downloads ORDER BY created_at DESC LIMIT ?`: the first
      `limit` rows newest first. */
  function ListDownloads(rows: seq<Row>, limit: nat): (r: seq<Row>)
    ensures |r| == (if limit < |rows| then limit else |rows|)
    ensures NewestFirst(r)
    ensures multiset(r) <= multiset(rows)
  {
    var sorted := SortNewestFirst(rows);
    assert |sorted| == |multiset(sorted)| == |rows|;
    TakeNewest(sorted, if limit < |sorted| then limit else |sorted|);
    if limit < |sorted| then sorted[..limit] else (assert sorted[..|sorted|] == sorted; sorted)
  }

  /** No row of `rest` is newer than any row of `items`. */
  predicate NoNewerThan(rest: multiset<Row>, items: seq<Row>) {
    forall r, j :: r in rest && 0 <= j < |items| ==> r.createdAt <= items[j].createdAt
  }

  /** The first `n` of rows ordered newest first stay ordered and come from
      those rows. */
  lemma TakeNewest(sorted: seq<Row>, n: nat)
    requires NewestFirst(sorted) && n <= |sorted|
    ensures NewestFirst(sorted[..n])
    ensures multiset(sorted[..n]) <= multiset(sorted)
  {
    assert sorted == sorted[..n] + sorted[n..];
  }

  /** What the first `n` of rows ordered newest first leave out is the rest
      of the rows, and none of it is newer than what they hold. */
  lemma TakeNewestRest(sorted: seq<Row>, n: nat)
    requires NewestFirst(sorted) && n <= |sorted|
    ensures multiset(sorted) - multiset(sorted[..n]) == multiset(sorted[n..])
    ensures NoNewerThan(multiset(sorted[n..]), sorted[..n])
  {
    var items := sorted[..n];
    var rest := sorted[n..];
    assert sorted == items + rest;
    forall r: Row, j | r in multiset(rest) && 0 <= j < n ensures r.createdAt <= items[j].createdAt {
      var m :| 0 <= m < |rest| && rest[m] == r;
      assert sorted[n + m] == r;
      assert items[j] == sorted[j];
    }
  }

  /** Every row the listing leaves out is no newer than every row it holds. */
  lemma ListDownloadsNewest(rows: seq<Row>, limit: nat)
    ensures var items := ListDownloads(rows, limit);
            NoNewerThan(multiset(rows) - multiset(items), items)
  {
    var sorted := SortNewestFirst(rows);
    var n := if limit < |sorted| then limit else |sorted|;
    TakeNewestRest(sorted, n);
    assert ListDownloads(rows, limit) == sorted[..n];
  }
}
