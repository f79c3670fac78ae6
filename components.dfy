/** The state of the front end's reusable widgets: the data table (search,
    sorting and pagination), the progress bar and the timeline. Rendering is
    not modelled; what is modelled is the state those widgets keep and the
    rows a table shows. */
module Components {
  import opened JsValue
  import opened Seqs

  // ---------------------------------------------------------------------------
  // Timeline

  /** One entry of a timeline: its status colour, title, description and date. */
  datatype TimelineItem = TimelineItem(status: string, title: string, description: string, date: string)

  class Timeline {
    var items: seq<TimelineItem>

    constructor(items: seq<TimelineItem>)
      ensures this.items == items
    {
      this.items := items;
    }

    /** `addItem`: the new item goes first and the others move back one place,
        unchanged. */
    method AddItem(item: TimelineItem)
      modifies this
      ensures |items| == |old(items)| + 1
      ensures items[0] == item
      ensures items[1..] == old(items)
    {
      items := [item] + items;
    }
  }

  // ---------------------------------------------------------------------------
  // ProgressBar

  /** `Math.max(0, Math.min(max, value))`. */
  function Clamp(max: int, value: int): (r: int)
    ensures r >= 0
    ensures max >= 0 ==> r <= max
    ensures 0 <= value <= max ==> r == value
    ensures value > max ==> r == (if max < 0 then 0 else max)
    ensures value < 0 ==> r == 0
  {
    if value < max then (if value < 0 then 0 else value)
    else if max < 0 then 0
    else max
  }

  /** Clamping a clamped value changes nothing. */
  lemma ClampIdempotent(max: int, value: int)
    requires max >= 0
    ensures Clamp(max, Clamp(max, value)) == Clamp(max, value)
  {
  }

  class ProgressBar {
    var value: int
    var max: int

    /** The options default to a value of 0 out of 100; given options are
        taken as they are, without clamping. */
    constructor(value: int, max: int)
      ensures this.value == value && this.max == max
    {
      this.value := value;
      this.max := max;
    }

    /** `setValue`: stores the value clamped into `[0, max]`. */
    method SetValue(v: int)
      modifies this
      ensures max == old(max)
      ensures value == Clamp(max, v)
      ensures 0 <= value && (max >= 0 ==> value <= max)
    {
      value := Clamp(max, v);
    }
  }

  // ---------------------------------------------------------------------------
  // DataTable: search

  /** A table row: an object's properties. */
  type Row = map<string, Value>

  /** `row[field]`; `None` stands for `undefined`. */
  function Cell(row: Row, field: string): Option<Value>
  {
    if field in row then Some(row[field]) else None
  }

  /** A column: the field it shows, its header and whether it may be sorted
      (`column.sortable !== false`). */
  datatype Column = Column(field: string, header: string, sortable: bool)

  /** `value && value.toString().toLowerCase().includes(term)`. */
  predicate CellMatches(value: Option<Value>, term: string)
  {
    Truthy(value) && Contains(ToLower(JsString(value)), term)
  }

  /** `columns.some(...)`: some column's value in this row matches the term. */
  predicate RowMatches(columns: seq<Column>, term: string, row: Row)
  {
    exists k :: 0 <= k < |columns| && CellMatches(Cell(row, columns[k].field), term)
  }

  function Matching(columns: seq<Column>, term: string): Row -> bool
  {
    row => RowMatches(columns, term, row)
  }

  /** `getFilteredData`: every row for an empty search term; otherwise the
      rows, in order, that some column matches. */
  function Filtered(data: seq<Row>, columns: seq<Column>, term: string): (rows: seq<Row>)
    ensures |rows| <= |data|
    ensures term == "" ==> rows == data
    ensures term != "" ==> forall row :: row in rows <==> row in data && RowMatches(columns, term, row)
  {
    if term == "" then data else Filter(data, Matching(columns, term))
  }

  /** An occurrence of an occurrence is an occurrence. */
  lemma ContainsTransitive(s: string, t: string, u: string)
    requires Contains(s, t) && Contains(t, u)
    ensures Contains(s, u)
  {
    var i :| 0 <= i <= |s| - |t| && OccursAt(s, t, i);
    var j :| 0 <= j <= |t| - |u| && OccursAt(t, u, j);
    assert forall k :: 0 <= k < |u| ==> s[i + j + k] == t[j + k] == u[k];
    assert OccursAt(s, u, i + j);
  }

  /** Typing more of the search term only narrows the rows: searching for a
      longer term is searching, among the rows the shorter term kept, for the
      longer one. */
  lemma NarrowingSearch(data: seq<Row>, columns: seq<Column>, shorter: string, longer: string)
    requires Contains(longer, shorter)
    ensures Filtered(data, columns, longer) == Filtered(Filtered(data, columns, shorter), columns, longer)
  {
    if shorter != "" {
      var p, q := Matching(columns, shorter), Matching(columns, longer);
      forall i | 0 <= i < |data| ensures Both(p, q)(data[i]) == q(data[i]) {
        if q(data[i]) {
          var k :| 0 <= k < |columns| && CellMatches(Cell(data[i], columns[k].field), longer);
          ContainsTransitive(ToLower(JsString(Cell(data[i], columns[k].field))), longer, shorter);
        }
      }
      FilterThenFilter(data, p, q);
      FilterCongruent(data, Both(p, q), q);
    }
  }

  // ---------------------------------------------------------------------------
  // DataTable: pagination

  /** `Math.ceil(n / pageSize)`. */
  function TotalPages(n: nat, pageSize: nat): (pages: nat)
    requires pageSize >= 1
    ensures n == 0 <==> pages == 0
    ensures (pages - 1) * pageSize < n <= pages * pageSize || n == 0
  {
    var pages := (n + pageSize - 1) / pageSize;
    assert n + pageSize - 1 == pageSize * pages + (n + pageSize - 1) % pageSize;
    assert (pages - 1) * pageSize == pages * pageSize - pageSize;
    pages
  }

  /** `getPaginatedData` with pagination on: `data.slice(start, start + pageSize)`
      where `start = (page - 1) * pageSize`. */
  function Page(rows: seq<Row>, page: int, pageSize: nat): (shown: seq<Row>)
    ensures page >= 1 ==> |shown| <= pageSize
    ensures page >= 1 ==> forall i :: 0 <= i < |shown| ==>
      (page - 1) * pageSize + i < |rows| && shown[i] == rows[(page - 1) * pageSize + i]
  {
    var start := (page - 1) * pageSize;
    if page >= 1 then
      assert start >= 0;
      Slice(rows, start, start + pageSize)
    else Slice(rows, start, start + pageSize)
  }

  /** Row `i` is shown on page `i / pageSize + 1`, at position `i % pageSize`,
      and that page exists. */
  lemma RowOnPage(rows: seq<Row>, pageSize: nat, i: nat)
    requires pageSize >= 1 && i < |rows|
    ensures 1 <= i / pageSize + 1 <= TotalPages(|rows|, pageSize)
    ensures i % pageSize < |Page(rows, i / pageSize + 1, pageSize)|
    ensures Page(rows, i / pageSize + 1, pageSize)[i % pageSize] == rows[i]
  {
    var q, r := i / pageSize, i % pageSize;
    assert i == q * pageSize + r;
    var pages := TotalPages(|rows|, pageSize);
    if q + 1 > pages {
      MulMonotone(pages, q, pageSize);
      assert false;
    }
    assert (q + 1 - 1) * pageSize == q * pageSize;
    SliceLength(rows, q * pageSize, q * pageSize + pageSize);
  }

  lemma MulMonotone(a: nat, b: nat, c: nat)
    requires a <= b
    ensures a * c <= b * c
  {
    assert b * c == a * c + (b - a) * c;
  }

  lemma SliceLength(rows: seq<Row>, start: nat, end: int)
    requires start <= end
    ensures |Slice(rows, start, end)| == if end <= |rows| then end - start else if start <= |rows| then |rows| - start else 0
  {
  }

  /** The `Mostrando start-end de n` line: the first and last row numbers
      (from 1) of the page. */
  function ShownRange(page: int, pageSize: nat, n: nat): (range: (int, int))
  {
    ((page - 1) * pageSize + 1, if page * pageSize < n then page * pageSize else n)
  }

  /** On every existing page, the numbers in the `Mostrando` line name exactly
      the rows the page shows. */
  lemma ShownRangeMatchesPage(rows: seq<Row>, page: int, pageSize: nat)
    requires pageSize >= 1 && 1 <= page <= TotalPages(|rows|, pageSize)
    ensures 1 <= ShownRange(page, pageSize, |rows|).0 <= ShownRange(page, pageSize, |rows|).1 <= |rows|
    ensures Page(rows, page, pageSize) ==
      rows[ShownRange(page, pageSize, |rows|).0 - 1..ShownRange(page, pageSize, |rows|).1]
  {
    var pages := TotalPages(|rows|, pageSize);
    var start := (page - 1) * pageSize;
    assert page * pageSize == start + pageSize;
    MulMonotone(page - 1, pages - 1, pageSize);
    SliceLength(rows, start, start + pageSize);
  }

  /** The page-number buttons: `[max(1, current - 2), min(totalPages, current + 2)]`. */
  function PageWindow(current: int, totalPages: nat): (window: (int, int))
    ensures window.0 >= 1 && window.1 <= totalPages
    ensures window.1 - window.0 <= 4
    ensures 1 <= current <= totalPages ==> window.0 <= current <= window.1
  {
    (if current - 2 > 1 then current - 2 else 1, if current + 2 < totalPages then current + 2 else totalPages)
  }

  // ---------------------------------------------------------------------------
  // DataTable: sorting

  datatype Direction = Asc | Desc

  /** `a < b` on the values a column holds: numbers numerically, strings by
      character (code point), anything else never less. */
  predicate Less(a: Option<Value>, b: Option<Value>)
  {
    match (a, b)
    case (Some(Num(x)), Some(Num(y))) => x < y
    case (Some(Str(s)), Some(Str(t))) => StringLess(s, t)
    case _ => false
  }

  /** Lexicographic order: a proper prefix first, else the first differing
      character decides. */
  predicate StringLess(s: string, t: string)
  {
    if s == [] then t != []
    else if t == [] then false
    else if s[0] != t[0] then s[0] < t[0]
    else StringLess(s[1..], t[1..])
  }

  /** The comparator `sort` passes to `Array.prototype.sort`. */
  function Compare(a: Option<Value>, b: Option<Value>, direction: Direction): (c: int)
    ensures StrictEquals(a, b) ==> c == 0
    ensures !StrictEquals(a, b) && direction == Asc ==> (c < 0 <==> Less(a, b))
    ensures !StrictEquals(a, b) && direction == Desc ==> (c < 0 <==> !Less(a, b))
  {
    if StrictEquals(a, b) then 0
    else
      var comparison := if Less(a, b) then -1 else 1;
      if direction == Asc then comparison else -comparison
  }

  /** `before(x, y)`: the comparator puts row `x` strictly before row `y`. */
  function Before(field: string, direction: Direction): (Row, Row) -> bool
  {
    (x: Row, y: Row) => Compare(Cell(x, field), Cell(y, field), direction) < 0
  }

  /** The rows whose cell in `field` is a number. */
  predicate NumericIn(rows: set<Row>, field: string)
  {
    forall row :: row in rows ==> Cell(row, field).Some? && Cell(row, field).value.Num?
  }

  /** On numeric cells the comparator is a consistent order. */
  lemma NumericComparatorConsistent(dom: set<Row>, field: string, direction: Direction)
    requires NumericIn(dom, field)
    ensures StrictWeakOrderOn(dom, Before(field, direction))
  {
    var before := Before(field, direction);
    forall x, y | x in dom && y in dom && before(x, y) ensures !before(y, x) {
    }
    forall x, y, z | x in dom && y in dom && z in dom && before(x, z)
      ensures before(x, y) || before(y, z)
    {
    }
  }

  /** The number in a numeric cell (0 for any other cell). */
  function Key(row: Row, field: string): int
  {
    match Cell(row, field)
    case Some(Num(n)) => n
    case _ => 0
  }

  /** After sorting by a numeric column the rows are a permutation of the old
      ones, ordered by that column: non-decreasing ascending, non-increasing
      descending. */
  lemma SortOrdersNumbers(data: seq<Row>, field: string, direction: Direction)
    requires NumericIn((set row | row in data), field)
    ensures multiset(SortBy(data, Before(field, direction))) == multiset(data)
    ensures var sorted := SortBy(data, Before(field, direction));
      forall i, j :: 0 <= i < j < |sorted| ==>
        if direction == Asc then Key(sorted[i], field) <= Key(sorted[j], field)
        else Key(sorted[i], field) >= Key(sorted[j], field)
  {
    var dom := set row | row in data;
    NumericComparatorConsistent(dom, field, direction);
    assert Within(data, dom);
    SortBySorted(data, Before(field, direction), dom);
    SortByWithin(data, Before(field, direction), dom);
  }

  lemma {:induction false} StringLessAsymmetric(s: string, t: string)
    ensures StringLess(s, t) ==> !StringLess(t, s)
  {
    if s != [] && t != [] && s[0] == t[0] {
      StringLessAsymmetric(s[1..], t[1..]);
    }
  }

  lemma {:induction false} StringLessTransitive(s: string, t: string, u: string)
    requires StringLess(s, t) && StringLess(t, u)
    ensures StringLess(s, u)
  {
    if s != [] && t != [] && u != [] && s[0] == t[0] == u[0] {
      StringLessTransitive(s[1..], t[1..], u[1..]);
    }
  }

  /** Two different strings are ordered one way or the other. */
  lemma {:induction false} StringLessTotal(s: string, t: string)
    requires s != t
    ensures StringLess(s, t) || StringLess(t, s)
  {
    if s != [] && t != [] && s[0] == t[0] {
      assert s == [s[0]] + s[1..] && t == [t[0]] + t[1..];
      StringLessTotal(s[1..], t[1..]);
    }
  }

  /** The rows whose cell in `field` is a string. */
  predicate TextualIn(rows: set<Row>, field: string)
  {
    forall row :: row in rows ==> Cell(row, field).Some? && Cell(row, field).value.Str?
  }

  /** The text in a textual cell (empty for any other cell). */
  function Text(row: Row, field: string): string
  {
    match Cell(row, field)
    case Some(Str(s)) => s
    case _ => ""
  }

  /** On textual cells the comparator is a consistent order. */
  lemma TextualComparatorConsistent(dom: set<Row>, field: string, direction: Direction)
    requires TextualIn(dom, field)
    ensures StrictWeakOrderOn(dom, Before(field, direction))
  {
    var before := Before(field, direction);
    forall x, y | x in dom && y in dom && before(x, y) ensures !before(y, x) {
      var a, b := Text(x, field), Text(y, field);
      StringLessAsymmetric(a, b);
      if a != b {
        StringLessTotal(a, b);
      }
    }
    forall x, y, z | x in dom && y in dom && z in dom && before(x, z)
      ensures before(x, y) || before(y, z)
    {
      var a, b, c := Text(x, field), Text(y, field), Text(z, field);
      if a != b {
        StringLessTotal(a, b);
      }
      if b != c {
        StringLessTotal(b, c);
      }
      StringLessAsymmetric(a, b);
      StringLessAsymmetric(b, c);
      StringLessAsymmetric(a, c);
      if StringLess(a, b) && StringLess(b, c) {
        StringLessTransitive(a, b, c);
      }
      if StringLess(b, a) && StringLess(c, b) {
        StringLessTransitive(c, b, a);
      }
    }
  }

  /** After sorting by a textual column the rows are a permutation of the old
      ones, in lexicographic order: ascending, or descending. */
  lemma SortOrdersStrings(data: seq<Row>, field: string, direction: Direction)
    requires TextualIn((set row | row in data), field)
    ensures multiset(SortBy(data, Before(field, direction))) == multiset(data)
    ensures var sorted := SortBy(data, Before(field, direction));
      forall i, j :: 0 <= i < j < |sorted| ==>
        if direction == Asc then !StringLess(Text(sorted[j], field), Text(sorted[i], field))
        else !StringLess(Text(sorted[i], field), Text(sorted[j], field))
  {
    var dom := set row | row in data;
    TextualComparatorConsistent(dom, field, direction);
    assert Within(data, dom);
    SortBySorted(data, Before(field, direction), dom);
    SortByWithin(data, Before(field, direction), dom);
    var sorted := SortBy(data, Before(field, direction));
    forall i, j | 0 <= i < j < |sorted|
      ensures if direction == Asc then !StringLess(Text(sorted[j], field), Text(sorted[i], field))
        else !StringLess(Text(sorted[i], field), Text(sorted[j], field))
    {
      assert sorted[i] in dom && sorted[j] in dom;
      StringLessAsymmetric(Text(sorted[i], field), Text(sorted[j], field));
    }
  }

  // ---------------------------------------------------------------------------
  // DataTable

  /** Sorting reorders the rows, so as many of them match a search as before. */
  lemma SortKeepsMatchCount(rows: seq<Row>, columns: seq<Column>, term: string, before: (Row, Row) -> bool)
    ensures |Filtered(SortBy(rows, before), columns, term)| == |Filtered(rows, columns, term)|
  {
    if term != "" {
      FilterPermutation(rows, SortBy(rows, before), Matching(columns, term));
    }
  }

  /** The pagination bar drawn under the table: the page it was drawn for and the
      page count it showed. Its listeners capture the table, not these numbers:
      `Anterior` exists when `page > 1`, `Próximo` when `page < pages`, and a
      number button for every other page of its window. */
  datatype PageBar = PageBar(page: int, pages: nat)

  class DataTable {
    var data: seq<Row>
    const columns: seq<Column>
    const searchable: bool
    const sortable: bool
    const pagination: bool
    const pageSize: nat
    var currentPage: int
    var sortColumn: Option<string>
    var sortDirection: Direction
    var searchTerm: string
    var bar: Option<PageBar>

    /** The rows `getFilteredData` returns. */
    function FilteredData(): seq<Row>
      reads this
    {
      Filtered(data, columns, searchTerm)
    }

    /** `getPaginatedData(rows)`. */
    function PaginatedData(rows: seq<Row>): (shown: seq<Row>)
      reads this
      ensures !pagination ==> shown == rows
      ensures pagination && currentPage >= 1 ==> |shown| <= pageSize
    {
      if pagination then Page(rows, currentPage, pageSize) else rows
    }

    /** The number of pages the pagination bar counts. */
    function PageCount(): nat
      reads this
      requires pageSize >= 1
    {
      TotalPages(|FilteredData()|, pageSize)
    }

    /** The current page is a page of the table (page 1 when there are no rows). */
    predicate Valid()
      reads this
    {
      pageSize >= 1 && 1 <= currentPage && (currentPage == 1 || currentPage <= PageCount())
    }

    /** The bar on screen is the one a full `render()` draws for the current state. */
    predicate Fresh()
      reads this
    {
      pageSize >= 1 && bar == (if pagination && PageCount() > 1 then Some(PageBar(currentPage, PageCount())) else None)
    }

    /** `renderPagination`: with at most one page it returns early and leaves the
        bar already on screen in place; otherwise it replaces it. */
    method DrawPagination()
      requires pageSize >= 1
      modifies this`bar
      ensures bar == if PageCount() <= 1 then old(bar) else Some(PageBar(currentPage, PageCount()))
    {
      if PageCount() > 1 {
        bar := Some(PageBar(currentPage, PageCount()));
      }
    }

    /** `render`: the container is emptied, then the bar drawn when pagination is on. */
    method Render()
      requires pageSize >= 1
      modifies this`bar
      ensures Fresh()
    {
      bar := None;
      if pagination {
        DrawPagination();
      }
    }

    /** A fresh table: page 1, no sort column, ascending, no search term. */
    constructor(data: seq<Row>, columns: seq<Column>, searchable: bool, sortable: bool,
                pagination: bool, pageSize: nat)
      requires pageSize >= 1
      ensures this.data == data && this.columns == columns && this.searchable == searchable
      ensures this.sortable == sortable && this.pagination == pagination && this.pageSize == pageSize
      ensures currentPage == 1 && sortColumn == None && sortDirection == Asc && searchTerm == ""
      ensures Valid() && Fresh()
    {
      this.data := data;
      this.columns := columns;
      this.searchable := searchable;
      this.sortable := sortable;
      this.pagination := pagination;
      this.pageSize := pageSize;
      currentPage := 1;
      sortColumn := None;
      sortDirection := Asc;
      searchTerm := "";
      bar := None;
      new;
      Render();
    }

    /** The search box's input handler: the term is kept lower-cased and the
        table goes back to page 1. Only the bar is redrawn, so when the search
        leaves a single page the old bar, with its listeners, stays on screen. */
    method SetSearchTerm(input: string)
      requires pageSize >= 1
      modifies this
      ensures searchTerm == ToLower(input) && currentPage == 1
      ensures data == old(data) && sortColumn == old(sortColumn) && sortDirection == old(sortDirection)
      ensures bar == if pagination && PageCount() > 1 then Some(PageBar(1, PageCount())) else old(bar)
      ensures Valid()
    {
      searchTerm := ToLower(input);
      currentPage := 1;
      if pagination {
        DrawPagination();
      }
    }

    /** `updateData`: new rows, back to page 1, everything redrawn. */
    method UpdateData(newData: seq<Row>)
      requires pageSize >= 1
      modifies this
      ensures data == newData && currentPage == 1
      ensures searchTerm == old(searchTerm) && sortColumn == old(sortColumn) && sortDirection == old(sortDirection)
      ensures Valid() && Fresh()
    {
      data := newData;
      currentPage := 1;
      Render();
    }

    /** `sort(field)`: the current column toggles its direction, another column
        becomes current in ascending order; the rows are then stably sorted
        with the comparator. The page stays where it was. */
    method Sort(field: string)
      requires pageSize >= 1
      modifies this
      ensures sortColumn == Some(field)
      ensures sortDirection ==
        if old(sortColumn) == Some(field) then (if old(sortDirection) == Asc then Desc else Asc) else Asc
      ensures data == SortBy(old(data), Before(field, sortDirection))
      ensures currentPage == old(currentPage) && searchTerm == old(searchTerm)
      ensures PageCount() == old(PageCount())
      ensures bar == if pagination && PageCount() > 1 then Some(PageBar(currentPage, PageCount())) else old(bar)
      ensures old(Valid()) ==> Valid()
      ensures old(Fresh()) ==> Fresh()
    {
      var direction := Asc;
      if sortColumn == Some(field) {
        direction := if sortDirection == Asc then Desc else Asc;
      }
      var sorted := SortBy(data, Before(field, direction));
      SortKeepsMatchCount(data, columns, searchTerm, Before(field, direction));
      sortColumn, sortDirection := Some(field), direction;
      Reorder(sorted);
    }

    /** The rows replaced by a reordering of them, then the bar redrawn, as the
        end of `sort` does. */
    method Reorder(rows: seq<Row>)
      requires pageSize >= 1
      requires |Filtered(rows, columns, searchTerm)| == |FilteredData()|
      modifies this`data, this`bar
      ensures data == rows
      ensures PageCount() == old(PageCount())
      ensures bar == if pagination && PageCount() > 1 then Some(PageBar(currentPage, PageCount())) else old(bar)
      ensures old(Valid()) ==> Valid()
      ensures old(Fresh()) ==> Fresh()
    {
      data := rows;
      if pagination {
        DrawPagination();
      }
    }

    /** A click on `Anterior`, whose listener the bar on screen has when it was
        drawn after page 1. It steps back from the current page, whatever that
        is now, and redraws the bar. */
    method PreviousPage()
      requires pageSize >= 1 && bar.Some? && bar.value.page > 1
      modifies this
      ensures currentPage == old(currentPage) - 1
      ensures data == old(data) && searchTerm == old(searchTerm)
      ensures sortColumn == old(sortColumn) && sortDirection == old(sortDirection)
      ensures bar == if PageCount() > 1 then Some(PageBar(currentPage, PageCount())) else old(bar)
      ensures old(Valid() && Fresh()) ==> Valid() && Fresh()
    {
      currentPage := currentPage - 1;
      DrawPagination();
    }

    /** A click on `Próximo`, whose listener the bar on screen has when it was
        drawn before its last page. */
    method NextPage()
      requires pageSize >= 1 && bar.Some? && bar.value.page < bar.value.pages
      modifies this
      ensures currentPage == old(currentPage) + 1
      ensures data == old(data) && searchTerm == old(searchTerm)
      ensures sortColumn == old(sortColumn) && sortDirection == old(sortDirection)
      ensures bar == if PageCount() > 1 then Some(PageBar(currentPage, PageCount())) else old(bar)
      ensures old(Valid() && Fresh()) ==> Valid() && Fresh()
    {
      currentPage := currentPage + 1;
      DrawPagination();
    }

    /** A click on a number button of the bar on screen: a page of its window
        other than the page it was drawn for. */
    method GoToPage(page: int)
      requires pageSize >= 1 && bar.Some?
      requires PageWindow(bar.value.page, bar.value.pages).0 <= page <= PageWindow(bar.value.page, bar.value.pages).1
      requires page != bar.value.page
      modifies this
      ensures currentPage == page
      ensures data == old(data) && searchTerm == old(searchTerm)
      ensures sortColumn == old(sortColumn) && sortDirection == old(sortDirection)
      ensures bar == if PageCount() > 1 then Some(PageBar(currentPage, PageCount())) else old(bar)
      ensures old(Valid() && Fresh()) ==> Valid() && Fresh()
    {
      currentPage := page;
      DrawPagination();
    }
  }
}
