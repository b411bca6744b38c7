/** The document listing of api/index.js: `handleProcesses` (search,
    category filter, sort by title, one page of the result) and
    `handleCategories` (the distinct categories, sorted, after "All"). Both
    read `store.documents` and change nothing. */
module Processes {
  import opened Wrappers
  import opened JsText
  import opened Store
  import opened Sorting

  // ---------------------------------------------------------------------------
  // `parseInt(s)` with no radix (section 19.2.5 of ECMA-262)

  /** The value of a digit in radix 36 (`0-9`, then `a-z` in either case),
      or 36 for a character that is no digit at all. */
  function DigitValue(c: char): (v: nat)
    ensures v <= 36
    ensures IsDigit(c) ==> v == c as int - '0' as int
    ensures v < 10 ==> IsDigit(c)
  {
    if '0' <= c <= '9' then c as int - '0' as int
    else if 'a' <= c <= 'z' then c as int - 'a' as int + 10
    else if 'A' <= c <= 'Z' then c as int - 'A' as int + 10
    else 36
  }

  /** The longest prefix of `s` made of digits of the given radix. */
  function DigitPrefix(s: string, radix: nat): (z: string)
    ensures |z| <= |s| && z == s[..|z|]
    ensures forall i :: 0 <= i < |z| ==> DigitValue(z[i]) < radix
    ensures |z| < |s| ==> DigitValue(s[|z|]) >= radix
  {
    if s == [] || DigitValue(s[0]) >= radix then []
    else [s[0]] + DigitPrefix(s[1..], radix)
  }

  /** The value of a numeral in radix 16 (`hex`) or 10. */
  function DigitsValue(z: string, hex: bool): nat {
    if z == [] then 0
    else
      var v := DigitsValue(z[..|z| - 1], hex);
      (if hex then 16 * v else 10 * v) + DigitValue(z[|z| - 1])
  }

  /** The text after one leading sign, if any. */
  function Unsigned(t: string): (u: string)
    ensures |u| <= |t|
  {
    if t != [] && (t[0] == '-' || t[0] == '+') then t[1..] else t
  }

  predicate HasHexPrefix(u: string) {
    |u| >= 2 && u[0] == '0' && (u[1] == 'x' || u[1] == 'X')
  }

  /** The unsigned numeral at the start of `u`: hexadecimal after a `0x`
      or `0X` prefix, decimal otherwise; `NaN` when there is no digit. */
  function ReadNumeral(u: string): Number {
    var hex := HasHexPrefix(u);
    var z := DigitPrefix(if hex then u[2..] else u, if hex then 16 else 10);
    if z == [] then NaN else Num(DigitsValue(z, hex))
  }

  /** `parseInt(s)`: leading white space and one sign are skipped, and the
      numeral after them is read. */
  function ParseInt(s: string): Number {
    var t := TrimStart(s);
    var r := ReadNumeral(Unsigned(t));
    if t != [] && t[0] == '-' && r.Num? then Num(-r.n) else r
  }

  lemma {:induction false} DigitsValueDecimal(z: string)
    requires AllDigits(z)
    ensures DigitsValue(z, false) == ParseDigits(z)
  {
    if z != [] {
      DigitsValueDecimal(z[..|z| - 1]);
    }
  }

  lemma {:induction false} DigitPrefixOfDigits(z: string)
    requires AllDigits(z)
    ensures DigitPrefix(z, 10) == z
  {
    if z != [] {
      DigitPrefixOfDigits(z[1..]);
    }
  }

  lemma TrimStartOfDigit(s: string)
    requires s != [] && IsDigit(s[0])
    ensures TrimStart(s) == s
  {
    assert !IsSpace(s[0]);
  }

  /** A string starting with a digit other than a `0x` prefix is read in
      radix 10 from its first character. */
  lemma ParseIntUnsigned(s: string)
    requires s != [] && IsDigit(s[0]) && (|s| >= 2 ==> s[1] != 'x' && s[1] != 'X')
    ensures var z := DigitPrefix(s, 10);
      ParseInt(s) == if z == [] then NaN else Num(DigitsValue(z, false))
  {
    TrimStartOfDigit(s);
    assert Unsigned(s) == s;
    assert !HasHexPrefix(s);
  }

  /** A string of decimal digits reads as its decimal value; this is what
      the handlers do with the digits a route captured. */
  lemma ParseIntOfDigits(z: string)
    requires z != [] && AllDigits(z)
    ensures ParseInt(z) == Num(ParseDigits(z))
  {
    ParseIntUnsigned(z);
    DigitPrefixOfDigits(z);
    DigitsValueDecimal(z);
  }

  /** `parseInt(String(n)) == n` */
  lemma ParseIntOfDecimal(n: nat)
    ensures ParseInt(DecimalString(n)) == Num(n)
  {
    ParseIntOfDigits(DecimalString(n));
    ParseDecimal(n);
  }

  /** A string that does not start with a digit, a sign or white space
      reads as `NaN`. */
  lemma ParseIntNaN(s: string)
    requires s == [] || (DigitValue(s[0]) >= 10 && s[0] != '-' && s[0] != '+' && !IsSpace(s[0]))
    ensures ParseInt(s) == NaN
  {
    if s != [] {
      assert TrimStart(s) == s;
    }
  }

  // ---------------------------------------------------------------------------
  // Number arithmetic and `Array.prototype.slice`

  function Minus(x: Number, y: Number): Number {
    if x.NaN? || y.NaN? then NaN else Num(x.n - y.n)
  }

  function Plus(x: Number, y: Number): Number {
    if x.NaN? || y.NaN? then NaN else Num(x.n + y.n)
  }

  function Times(x: Number, y: Number): Number {
    if x.NaN? || y.NaN? then NaN else Num(x.n * y.n)
  }

  /** A `slice` bound resolved against a length: `NaN` counts as 0 and a
      negative bound counts from the end. */
  function SliceBound(x: Number, len: nat): (r: nat)
    ensures r <= len
  {
    if x.NaN? then 0
    else if x.n < 0 then (if len + x.n < 0 then 0 else len + x.n)
    else if x.n < len then x.n
    else len
  }

  /** `s.slice(start, end)` */
  function Slice<T>(s: seq<T>, start: Number, end: Number): (r: seq<T>)
    ensures var a, b := SliceBound(start, |s|), SliceBound(end, |s|);
      if a < b then r == s[a..b] else r == []
  {
    var a, b := SliceBound(start, |s|), SliceBound(end, |s|);
    if a < b then s[a..b] else []
  }

  /** `Math.ceil(t / l)` for a non-zero integer divisor. */
  function CeilDiv(t: int, l: int): (c: int)
    requires l != 0
  {
    if l > 0 then -((-t) / l) else -(t / (-l))
  }

  /** `CeilDiv` is the ceiling: the least `c` with `c >= t / l`, that is
      with `c * l >= t` for a positive divisor and `c * l <= t` for a
      negative one. */
  lemma CeilDivIsCeiling(t: int, l: int)
    requires l != 0
    ensures l > 0 ==> CeilDiv(t, l) * l >= t > (CeilDiv(t, l) - 1) * l
    ensures l < 0 ==> CeilDiv(t, l) * l <= t < (CeilDiv(t, l) - 1) * l
  {
    if l > 0 {
      var q := (-t) / l;
      assert q * l <= -t < (q + 1) * l;
      assert CeilDiv(t, l) * l == -(q * l);
      assert (CeilDiv(t, l) - 1) * l == -((q + 1) * l);
    } else {
      var q := t / (-l);
      assert q * (-l) <= t < (q + 1) * (-l);
      assert CeilDiv(t, l) * l == q * (-l);
      assert (CeilDiv(t, l) - 1) * l == (q + 1) * (-l);
    }
  }

  // ---------------------------------------------------------------------------
  // The listing

  /** `req.query` as far as the listing reads it; an absent parameter is
      `None`. */
  datatype ListQuery = ListQuery(
    search: Option<string>,
    category: Option<string>,
    page: Option<string>,
    limit: Option<string>)

  /** A document without its `content_text`. */
  datatype DocumentSummary = DocumentSummary(
    id: int,
    drive_file_id: string,
    title: string,
    category: string,
    mime_type: string,
    drive_url: string,
    file_size: Number,
    last_modified: string,
    synced_at: Timestamp,
    created_at: Timestamp)

  /** The response body. A `NaN` page count also stands for the infinite
      page count of a zero limit: `JSON.stringify` writes both as `null`. */
  datatype Listing = Listing(
    documents: seq<DocumentSummary>,
    page: Number,
    limit: Number,
    total: nat,
    totalPages: Number)

  function Summary(d: Document): (s: DocumentSummary)
    ensures s.id == d.id && s.drive_file_id == d.drive_file_id && s.title == d.title
    ensures s.category == d.category && s.mime_type == d.mime_type && s.drive_url == d.drive_url
    ensures s.file_size == d.file_size && s.last_modified == d.last_modified
    ensures s.synced_at == d.synced_at && s.created_at == d.created_at
  {
    DocumentSummary(d.id, d.drive_file_id, d.title, d.category, d.mime_type,
      d.drive_url, d.file_size, d.last_modified, d.synced_at, d.created_at)
  }

  /** `docs.filter(keep)` */
  function Where(docs: seq<Document>, keep: Document -> bool): (r: seq<Document>)
    ensures |r| <= |docs|
    ensures forall d :: multiset(r)[d] == if keep(d) then multiset(docs)[d] else 0
  {
    if docs == [] then []
    else
      assert docs == docs[..|docs| - 1] + [docs[|docs| - 1]];
      var d := docs[|docs| - 1];
      Where(docs[..|docs| - 1], keep) + (if keep(d) then [d] else [])
  }

  /** The search test for the lower-cased search text `s`: the title
      contains it, or the text is non-empty and contains it. */
  predicate SearchHit(d: Document, s: string) {
    Includes(ToLower(d.title), s)
    || (d.content_text != [] && Includes(ToLower(d.content_text), s))
  }

  /** The documents the search and category parameters keep, in store order. */
  function Selected(docs: seq<Document>, q: ListQuery): seq<Document> {
    var afterSearch :=
      if q.search.Some? && q.search.value != [] then
        var s := ToLower(q.search.value);
        Where(docs, (d: Document) => SearchHit(d, s))
      else docs;
    if q.category.Some? && q.category.value != [] && q.category.value != "All" then
      var c := q.category.value;
      Where(afterSearch, (d: Document) => d.category == c)
    else afterSearch
  }

  /** The comparator `(a, b) => a.title.localeCompare(b.title)`, from
      `localeCompare` given as a relation on titles. */
  function ByTitle(titleLe: (string, string) -> bool): (Document, Document) -> bool {
    (a: Document, b: Document) => titleLe(a.title, b.title)
  }

  function Summaries(docs: seq<Document>): (r: seq<DocumentSummary>)
    ensures |r| == |docs|
    ensures forall i :: 0 <= i < |docs| ==> r[i] == Summary(docs[i])
  {
    seq(|docs|, i requires 0 <= i < |docs| => Summary(docs[i]))
  }

  const DefaultPage: string := "1"
  const DefaultLimit: string := "20"

  /** `handleProcesses`: `page` defaults to "1" and `limit` to "20"; the
      page starts at `(page - 1) * limit` and holds `limit` documents. */
  function ListProcesses(docs: seq<Document>, q: ListQuery, titleLe: (string, string) -> bool): Listing {
    var sorted := Sort(Selected(docs, q), ByTitle(titleLe));
    var pageNum := ParseInt(q.page.GetOr(DefaultPage));
    var limitNum := ParseInt(q.limit.GetOr(DefaultLimit));
    var start := Times(Minus(pageNum, Num(1)), limitNum);
    var paged := Slice(sorted, start, Plus(start, limitNum));
    Listing(Summaries(paged), pageNum, limitNum, |sorted|, TotalPages(|sorted|, limitNum))
  }

  /** `Math.ceil(total / limit)`; `NaN` for a `NaN` or zero limit. */
  function TotalPages(total: nat, limit: Number): Number {
    if limit.NaN? || limit.n == 0 then NaN else Num(CeilDiv(total, limit.n))
  }

  /** Page `p` of `limit` documents (1-based). */
  function Page<T>(s: seq<T>, p: int, limit: int): seq<T> {
    var start := Times(Minus(Num(p), Num(1)), Num(limit));
    Slice(s, start, Plus(start, Num(limit)))
  }

  // ---------------------------------------------------------------------------
  // What the listing promises

  /** A search keeps exactly the documents whose lower-cased title or
      non-empty lower-cased text contains the lower-cased search text, and
      a category other than "All" keeps exactly the documents of that
      category; every kept document keeps its multiplicity. */
  lemma SelectedIff(docs: seq<Document>, q: ListQuery, d: Document)
    ensures var searching := q.search.Some? && q.search.value != [];
      var filtering := q.category.Some? && q.category.value != [] && q.category.value != "All";
      multiset(Selected(docs, q))[d] ==
        if (searching ==> SearchHit(d, ToLower(q.search.value)))
          && (filtering ==> d.category == q.category.value)
        then multiset(docs)[d] else 0
  {
  }

  /** Without search text and category (or with the category "All") every
      document is listed. */
  lemma NoFilterSelectsAll(docs: seq<Document>, q: ListQuery)
    requires q.search.None? || q.search.value == []
    requires q.category.None? || q.category.value == [] || q.category.value == "All"
    ensures Selected(docs, q) == docs
  {
  }

  /** The listed documents are the selected ones in title order, and
      `total` counts all of them, not only the page. */
  lemma ListSortedByTitle(docs: seq<Document>, q: ListQuery, titleLe: (string, string) -> bool)
    requires TotalPreorder(titleLe)
    ensures var sorted := Sort(Selected(docs, q), ByTitle(titleLe));
      && SortedBy(sorted, ByTitle(titleLe))
      && multiset(sorted) == multiset(Selected(docs, q))
      && ListProcesses(docs, q, titleLe).total == |Selected(docs, q)|
  {
    var sel := Selected(docs, q);
    var le := ByTitle(titleLe);
    assert TotalPreorderOn(sel, le) by {
      forall a, b, c | a in sel && b in sel && c in sel && le(a, b) && le(b, c)
        ensures le(a, c)
      {
        assert titleLe(a.title, b.title) && titleLe(b.title, c.title);
      }
      forall a, b | a in sel && b in sel ensures le(a, b) || le(b, a) {
        assert titleLe(a.title, b.title) || titleLe(b.title, a.title);
      }
    }
    SortSorted(sel, le);
  }

  lemma MulNonNeg(a: int, b: int)
    requires a >= 0 && b >= 0
    ensures a * b >= 0
  {
  }

  lemma CeilDivNonNegative(t: nat, l: int)
    requires l > 0
    ensures CeilDiv(t, l) >= 0
  {
    var m: int := -(t as int);
    assert m / l <= 0;
  }

  /** Page `p >= 1` of a non-negative limit is the window
      `[(p - 1) * limit, p * limit)` cut to the list. */
  lemma PageWindow<T>(s: seq<T>, p: int, limit: int)
    requires p >= 1 && limit >= 0
    ensures var a := if (p - 1) * limit < |s| then (p - 1) * limit else |s|;
      var b := if p * limit < |s| then p * limit else |s|;
      0 <= a <= b <= |s| && Page(s, p, limit) == s[a..b]
  {
    MulNonNeg(p - 1, limit);
    assert (p - 1) * limit + limit == p * limit;
  }

  /** The pages 1 .. k in a row. */
  function PagesUpTo<T>(s: seq<T>, limit: int, k: nat): seq<T> {
    if k == 0 then [] else PagesUpTo(s, limit, k - 1) + Page(s, k, limit)
  }

  /** The first `k` pages hold the first `k * limit` documents, in order. */
  lemma {:induction false} PagesTile<T>(s: seq<T>, limit: int, k: nat)
    requires limit >= 0
    ensures var n := if k * limit < |s| then k * limit else |s|;
      PagesUpTo(s, limit, k) == s[..n]
  {
    if k > 0 {
      PagesTile(s, limit, k - 1);
      PageWindow(s, k, limit);
    }
  }

  /** With a positive limit the reported page count is the number of pages
      that hold every listed document, and the last of them is non-empty. */
  lemma PagesCoverAll<T>(s: seq<T>, limit: int)
    requires limit > 0
    ensures TotalPages(|s|, Num(limit)).Num?
    ensures var k := TotalPages(|s|, Num(limit)).n;
      && k >= 0
      && PagesUpTo(s, limit, k) == s
      && (k > 0 ==> Page(s, k, limit) != [])
  {
    var k := CeilDiv(|s|, limit);
    CeilDivIsCeiling(|s|, limit);
    CeilDivNonNegative(|s|, limit);
    assert k * limit >= |s|;
    PagesTile(s, limit, k);
    assert s[..|s|] == s;
    if k > 0 {
      assert (k - 1) * limit < |s|;
      PageWindow(s, k, limit);
      assert |Page(s, k, limit)| == |s| - (k - 1) * limit;
    }
  }

  /** The default page reads as 1. */
  lemma DefaultPageParses()
    ensures ParseInt(DefaultPage) == Num(1)
  {
    assert DefaultPage == DecimalString(1);
    ParseIntOfDecimal(1);
  }

  /** The default limit reads as 20. */
  lemma DefaultLimitParses()
    ensures ParseInt(DefaultLimit) == Num(20)
  {
    assert DefaultLimit == DecimalString(20);
    ParseIntOfDecimal(20);
  }

  /** Without `page` and `limit` the first 20 documents are listed and
      the page count is `ceil(total / 20)`. */
  lemma DefaultPaging(docs: seq<Document>, q: ListQuery, titleLe: (string, string) -> bool)
    requires q.page.None? && q.limit.None?
    ensures var sorted := Sort(Selected(docs, q), ByTitle(titleLe));
      var r := ListProcesses(docs, q, titleLe);
      && r.page == Num(1) && r.limit == Num(20)
      && r.documents == Summaries(sorted[..if |sorted| < 20 then |sorted| else 20])
      && r.totalPages == Num(CeilDiv(|sorted|, 20))
  {
    DefaultPageParses();
    DefaultLimitParses();
    var sorted := Sort(Selected(docs, q), ByTitle(titleLe));
    ListedPage(docs, q, titleLe, 1, 20);
    PageWindow(sorted, 1, 20);
  }

  /** The listed page is `Page` of the parsed page number and limit. */
  lemma ListedPage(docs: seq<Document>, q: ListQuery, titleLe: (string, string) -> bool, p: int, l: int)
    requires ParseInt(q.page.GetOr(DefaultPage)) == Num(p) && ParseInt(q.limit.GetOr(DefaultLimit)) == Num(l)
    ensures ListProcesses(docs, q, titleLe).documents
      == Summaries(Page(Sort(Selected(docs, q), ByTitle(titleLe)), p, l))
  {
  }

  /** A page number that does not parse lists nothing: the window becomes
      `slice(0, NaN)`. */
  lemma UnparsablePageEmpty(docs: seq<Document>, q: ListQuery, titleLe: (string, string) -> bool)
    requires q.page.Some? && ParseInt(q.page.value) == NaN
    ensures ListProcesses(docs, q, titleLe).documents == []
    ensures ListProcesses(docs, q, titleLe).page == NaN
  {
  }

  /** Page 0 lists nothing: its window ends at index 0. */
  lemma PageZeroEmpty<T>(s: seq<T>, limit: int)
    requires limit >= 0
    ensures Page(s, 0, limit) == []
  {
  }

  // ---------------------------------------------------------------------------
  // `handleCategories`

  predicate NoDuplicates<T(==)>(s: seq<T>) {
    forall i, j :: 0 <= i < j < |s| ==> s[i] != s[j]
  }

  /** `[...new Set(s)]`: the distinct elements in first-occurrence order. */
  function Distinct(s: seq<string>): (r: seq<string>)
    ensures NoDuplicates(r)
    ensures forall x :: x in r <==> x in s
  {
    if s == [] then []
    else
      var r := Distinct(s[..|s| - 1]);
      var x := s[|s| - 1];
      assert s == s[..|s| - 1] + [x];
      if x in r then r else r + [x]
  }

  function Categories(docs: seq<Document>): (r: seq<string>)
    ensures |docs| == |r|
    ensures forall i :: 0 <= i < |docs| ==> r[i] == docs[i].category
  {
    seq(|docs|, i requires 0 <= i < |docs| => docs[i].category)
  }

  /** `handleCategories`: "All", then the distinct categories sorted by
      the default `sort` order (code-unit order). */
  function CategoryList(docs: seq<Document>): seq<string> {
    ["All"] + Sort(Distinct(Categories(docs)), StrLe)
  }

  /** Two positions holding `x` make it occur at least twice. */
  lemma TwiceCounted<T>(s: seq<T>, i: nat, j: nat)
    requires i < j < |s| && s[i] == s[j]
    ensures multiset(s)[s[i]] >= 2
  {
    assert s == s[..j] + s[j..];
    assert s[i] in s[..j];
    assert s[j] in s[j..];
    assert multiset(s) == multiset(s[..j]) + multiset(s[j..]);
  }

  lemma {:induction false} NoDuplicatesCount<T>(s: seq<T>, x: T)
    requires NoDuplicates(s)
    ensures multiset(s)[x] <= 1
    decreases |s|
  {
    if s != [] {
      var t := s[..|s| - 1];
      assert s == t + [s[|s| - 1]];
      NoDuplicatesCount(t, x);
      if x == s[|s| - 1] {
        assert x !in t;
      }
    }
  }

  /** A permutation of a sequence without duplicates has none. */
  lemma PermutationNoDuplicates<T>(s: seq<T>, t: seq<T>)
    requires NoDuplicates(s) && multiset(t) == multiset(s)
    ensures NoDuplicates(t)
  {
    forall i, j | 0 <= i < j < |t| ensures t[i] != t[j] {
      if t[i] == t[j] {
        TwiceCounted(t, i, j);
        NoDuplicatesCount(s, t[i]);
      }
    }
  }

  /** The list starts with "All"; after it every category of some document
      appears exactly once, and nothing else, in ascending order. */
  lemma CategoryListFacts(docs: seq<Document>)
    ensures var r := CategoryList(docs);
      && r[0] == "All"
      && SortedBy(r[1..], StrLe)
      && NoDuplicates(r[1..])
      && forall c :: c in r[1..] <==> exists i :: 0 <= i < |docs| && docs[i].category == c
  {
    var cats := Distinct(Categories(docs));
    var sorted := Sort(cats, StrLe);
    assert CategoryList(docs)[1..] == sorted;
    StrLeTotalPreorder();
    assert TotalPreorderOn(cats, StrLe);
    SortSorted(cats, StrLe);
    PermutationNoDuplicates(cats, sorted);
    forall c ensures c in sorted <==> exists i :: 0 <= i < |docs| && docs[i].category == c {
      SortSameElements(cats, StrLe, c);
      if c in Categories(docs) {
        var i :| 0 <= i < |docs| && Categories(docs)[i] == c;
      }
    }
  }

  /** "All" is listed only once unless some document carries the category
      "All", which `inferCategory` never produces. */
  lemma AllListedOnce(docs: seq<Document>)
    requires forall i :: 0 <= i < |docs| ==> docs[i].category != "All"
    ensures "All" !in CategoryList(docs)[1..]
  {
    CategoryListFacts(docs);
  }
}
