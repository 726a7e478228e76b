/** The administrators' registrations page: the CSV export of the loaded
    page, the row selection, the delete guard and the pager. */
module RegistrationsPage {
  import opened Wrappers
  import opened Text
  import opened Schema
  import Query

  /** The column headings of the export. */
  const Headers: seq<string> :=
    ["报名编号", "学生姓名", "性别", "学校", "年级", "班级", "监护人", "联系电话", "支付状态", "报名时间"]

  /** The byte-order mark the file starts with. */
  const Bom: char := '\U{FEFF}'

  /** The status label of the export: paid and pending by name, anything
      else as refunded. */
  function StatusLabel(s: RegistrationStatus): (r: string)
    ensures s == Paid <==> r == "已支付"
    ensures s == Pending <==> r == "待支付"
    ensures s != Paid && s != Pending <==> r == "已退款"
  {
    if s == Paid then "已支付" else if s == Pending then "待支付" else "已退款"
  }

  /** The locale rendering of a timestamp; left to the caller. */
  type TimeFormat = int -> string

  /** The cells of one item, in heading order. */
  function RowCells(r: Registration, formatTime: TimeFormat): (cells: seq<string>)
    ensures |cells| == |Headers|
    ensures cells[0] == IntToDecimal(r.id) && cells[1] == r.input.studentName
    ensures cells[2] == GenderLabel(r.input.studentGender) && cells[7] == r.input.guardianPhone
    ensures cells[8] == StatusLabel(r.paymentStatus) && cells[9] == formatTime(r.createdAt)
  {
    [IntToDecimal(r.id), r.input.studentName, GenderLabel(r.input.studentGender), r.input.studentSchool,
     r.input.studentGrade, r.input.studentClass, r.input.guardianName, r.input.guardianPhone,
     StatusLabel(r.paymentStatus), formatTime(r.createdAt)]
  }

  /** Every row of the file: the headings, then one row per item. */
  function Table(items: seq<Registration>, formatTime: TimeFormat): (t: seq<seq<string>>)
    ensures |t| == |items| + 1 && t[0] == Headers
    ensures forall i :: 0 <= i < |items| ==> t[i + 1] == RowCells(items[i], formatTime)
  {
    [Headers] + Query.Map(items, (r: Registration) => RowCells(r, formatTime))
  }

  function JoinCells(row: seq<string>): string {
    Join(row, ",")
  }

  /** The file body: rows joined by "," (nothing quoted), lines by "\n". */
  function CsvBody(items: seq<Registration>, formatTime: TimeFormat): string {
    Join(Query.Map(Table(items, formatTime), JoinCells), "\n")
  }

  /** `handleExport`: nothing to export without items; otherwise the body
      after a byte-order mark. */
  function Export(items: seq<Registration>, formatTime: TimeFormat): (r: Option<string>)
    ensures r.None? <==> items == []
    ensures r.Some? ==> |r.value| >= 1 && r.value[0] == Bom && r.value[1..] == CsvBody(items, formatTime)
  {
    if items == [] then None else Some([Bom] + CsvBody(items, formatTime))
  }

  /** No cell of an item holds a separator. */
  predicate PlainCells(items: seq<Registration>, formatTime: TimeFormat) {
    forall i, k :: 0 <= i < |items| && 0 <= k < |Headers| ==>
      ',' !in RowCells(items[i], formatTime)[k] && '\n' !in RowCells(items[i], formatTime)[k]
  }

  /** Reading the exported file back: split into lines, then into cells. */
  function ReadCsv(body: string): seq<seq<string>> {
    Query.Map(Split(body, '\n'), (line: string) => Split(line, ','))
  }

  /** With no separator inside a cell, reading the export back gives the
      headings and every item's cells, in order. */
  lemma ExportReadsBack(items: seq<Registration>, formatTime: TimeFormat)
    requires items != []
    requires PlainCells(items, formatTime)
    ensures ReadCsv(Export(items, formatTime).value[1..]) == Table(items, formatTime)
  {
    var t := Table(items, formatTime);
    var lines := Query.Map(t, JoinCells);
    TableCellsPlain(items, formatTime);
    LinesPlain(t);
    SplitOfJoin(lines, '\n');
    assert Split(CsvBody(items, formatTime), '\n') == lines;
    forall i | 0 <= i < |t|
      ensures Split(lines[i], ',') == t[i]
    {
      SplitOfJoin(t[i], ',');
    }
  }

  /** No cell of the file, headings included, holds a separator. */
  lemma TableCellsPlain(items: seq<Registration>, formatTime: TimeFormat)
    requires PlainCells(items, formatTime)
    ensures var t := Table(items, formatTime);
      forall i :: 0 <= i < |t| ==> |t[i]| >= 1 && forall k :: 0 <= k < |t[i]| ==> ',' !in t[i][k] && '\n' !in t[i][k]
  {
    var t := Table(items, formatTime);
    forall i | 0 <= i < |t|
      ensures |t[i]| >= 1 && forall k :: 0 <= k < |t[i]| ==> ',' !in t[i][k] && '\n' !in t[i][k]
    {
      if i == 0 {
        HeadersPlain();
      } else {
        assert t[i] == RowCells(items[i - 1], formatTime);
      }
    }
  }

  /** Rows of plain cells join into lines without a line break. */
  lemma LinesPlain(t: seq<seq<string>>)
    requires forall i :: 0 <= i < |t| ==> forall k :: 0 <= k < |t[i]| ==> '\n' !in t[i][k]
    ensures forall i :: 0 <= i < |t| ==> '\n' !in Query.Map(t, JoinCells)[i]
  {
    forall i | 0 <= i < |t|
      ensures '\n' !in Query.Map(t, JoinCells)[i]
    {
      JoinKeepsAbsent(t[i], ",", '\n');
    }
  }

  lemma HeadersPlain()
    ensures forall k :: 0 <= k < |Headers| ==> ',' !in Headers[k] && '\n' !in Headers[k]
  {
  }

  /** `toggleSelect`: drop the id when it is selected, append it otherwise. */
  function ToggleSelect(selected: seq<int>, id: int): (r: seq<int>)
    ensures id in selected ==> id !in r
    ensures id !in selected ==> r == selected + [id]
    ensures forall x :: x != id ==> (x in r <==> x in selected)
  {
    if id in selected then Query.Filter(selected, (i: int) => i != id) else selected + [id]
  }

  /** Ticking an unselected row and unticking it leaves the selection as it was. */
  lemma {:induction false} ToggleTwiceRestores(selected: seq<int>, id: int)
    requires id !in selected
    ensures ToggleSelect(ToggleSelect(selected, id), id) == selected
  {
    FilterDropsLast(selected, id);
  }

  lemma {:induction false} FilterDropsLast(s: seq<int>, id: int)
    requires id !in s
    ensures Query.Filter(s + [id], (i: int) => i != id) == s
  {
    if s == [] {
      assert [id][1..] == [];
    } else {
      assert (s + [id])[1..] == s[1..] + [id];
      FilterDropsLast(s[1..], id);
    }
  }

  /** Toggling keeps a selection free of repeats. */
  lemma ToggleKeepsDistinct(selected: seq<int>, id: int)
    requires forall i, j :: 0 <= i < j < |selected| ==> selected[i] != selected[j]
    ensures var r := ToggleSelect(selected, id);
      forall i, j :: 0 <= i < j < |r| ==> r[i] != r[j]
  {
    if id in selected {
      Query.FilterKeepsDistinct(selected, (i: int) => i != id);
    }
  }

  function RegistrationIdOf(r: Registration): int {
    r.id
  }

  /** `toggleSelectAll`: clear when as many ids are selected as there are
      items, otherwise select every item. */
  function ToggleSelectAll(selected: seq<int>, items: seq<Registration>): (r: seq<int>)
    ensures |selected| == |items| ==> r == []
    ensures |selected| != |items| ==> |r| == |items| && forall i :: 0 <= i < |items| ==> r[i] == items[i].id
  {
    if |selected| == |items| then [] else Query.Map(items, RegistrationIdOf)
  }

  /** Selecting all and then toggling again clears the selection. */
  lemma SelectAllThenClear(selected: seq<int>, items: seq<Registration>)
    requires |selected| != |items|
    ensures ToggleSelectAll(ToggleSelectAll(selected, items), items) == []
  {
  }

  /** The test is on sizes only: a selection kept from another page that
      happens to have as many ids is cleared although none of this page's
      rows is in it. */
  lemma SelectAllComparesSizes(items: seq<Registration>, stale: seq<int>)
    requires |stale| == |items| && items != []
    requires forall x :: x in stale ==> forall i :: 0 <= i < |items| ==> items[i].id != x
    ensures ToggleSelectAll(stale, items) == []
  {
  }

  /** The previous-page button: one back, never below page 1. */
  function PreviousPage(page: int): (r: int)
    ensures r >= 1 && r >= page - 1 && r <= (if page > 1 then page - 1 else 1)
  {
    if page - 1 > 1 then page - 1 else 1
  }

  /** The next-page button: one on, never past the last page. */
  function NextPage(page: int, totalPages: int): (r: int)
    ensures r <= totalPages && r <= page + 1
    ensures r == page + 1 || r == totalPages
  {
    if page + 1 < totalPages then page + 1 else totalPages
  }

  /** From a page in range the pager stays in range. */
  lemma PagerStaysInRange(page: int, totalPages: int)
    requires 1 <= page <= totalPages
    ensures 1 <= PreviousPage(page) <= totalPages
    ensures 1 <= NextPage(page, totalPages) <= totalPages
    ensures page < totalPages ==> NextPage(page, totalPages) == page + 1
    ensures page > 1 ==> PreviousPage(page) == page - 1
  {
  }

  /** What the delete button does. */
  datatype DeleteAction =
    | NothingSelected            // "请选择要删除的记录", no request
    | Declined                   // the confirmation was dismissed
    | DeleteIds(ids: seq<int>)   // `batchDelete` with the selection

  /** The page's own state. */
  class RegistrationsView {
    var currentPage: int
    var selectedIds: seq<int>

    /** A page starts on page 1 with nothing selected. */
    constructor ()
      ensures currentPage == 1 && selectedIds == []
    {
      currentPage := 1;
      selectedIds := [];
    }

    /** `handleSearch`: back to the first page. */
    method Search()
      modifies this
      ensures currentPage == 1 && selectedIds == old(selectedIds)
    {
      currentPage := 1;
    }

    method Previous()
      modifies this
      ensures currentPage == PreviousPage(old(currentPage)) && selectedIds == old(selectedIds)
    {
      currentPage := if currentPage - 1 > 1 then currentPage - 1 else 1;
    }

    /** Shown only while there is more than one page. */
    method Next(totalPages: int)
      requires totalPages > 1
      modifies this
      ensures currentPage == NextPage(old(currentPage), totalPages) && selectedIds == old(selectedIds)
    {
      currentPage := if currentPage + 1 < totalPages then currentPage + 1 else totalPages;
    }

    method Toggle(id: int)
      modifies this
      ensures selectedIds == ToggleSelect(old(selectedIds), id) && currentPage == old(currentPage)
    {
      if id in selectedIds {
        selectedIds := Query.Filter(selectedIds, (i: int) => i != id);
      } else {
        selectedIds := selectedIds + [id];
      }
    }

    method ToggleAll(items: seq<Registration>)
      modifies this
      ensures selectedIds == ToggleSelectAll(old(selectedIds), items) && currentPage == old(currentPage)
    {
      if |selectedIds| == |items| {
        selectedIds := [];
      } else {
        selectedIds := Query.Map(items, RegistrationIdOf);
      }
    }

    /** `handleDelete`: refuse an empty selection, else ask, then request
      the deletion of exactly the selected ids. */
    method HandleDelete(confirmed: bool) returns (action: DeleteAction)
      ensures action == NothingSelected <==> selectedIds == []
      ensures selectedIds != [] && !confirmed ==> action == Declined
      ensures selectedIds != [] && confirmed ==> action == DeleteIds(selectedIds)
    {
      if |selectedIds| == 0 {
        return NothingSelected;
      }
      if confirmed {
        action := DeleteIds(selectedIds);
      } else {
        action := Declined;
      }
    }

    /** The deletion's success handler clears the selection. */
    method DeleteSucceeded()
      modifies this
      ensures selectedIds == [] && currentPage == old(currentPage)
    {
      selectedIds := [];
    }
  }
}
