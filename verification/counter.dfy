/**
 * The row counter field: it renders the number of the current result row,
 * counted from a configurable start and continued across pager pages.
 */
module Counter {
  import opened PhpValues
  import opened HandlerOptions

  /** What `render` reads from the view's pager. */
  datatype Pager = Pager(usePager: bool, itemsPerPage: int, currentPage: int, offset: int)

  /** `option_definition()`: the parent's definitions plus `counter_start`, defaulting to 1. */
  function OptionDefinition(parent: OptionDefinitions): (r: OptionDefinitions)
    ensures DefaultOf(r, "counter_start") == Some(Int(1))
    ensures forall k :: k != "counter_start" ==> Lookup(r, k) == Lookup(parent, k)
  {
    DefineFrame(parent, "counter_start", Int(1), false);
    Define(parent, "counter_start", Int(1), false)
  }

  /** The count before the row is added: one below a numeric start, 0 for anything else. */
  function StartCount(counterStart: Value): int
  {
    if IsNumeric(counterStart) then NumericValue(counterStart) - 1 else 0
  }

  /** The rows on earlier pages, plus the pager's offset; nothing without a pager. */
  function PagerBase(pager: Pager): int
  {
    if pager.usePager then pager.itemsPerPage * pager.currentPage + pager.offset else 0
  }

  /** `render($values)` for the row at `rowIndex` of the current page. */
  function Render(counterStart: Value, pager: Pager, rowIndex: int): int
  {
    var count := StartCount(counterStart);
    var count := count + PagerBase(pager);
    count + rowIndex + 1
  }

  /** Without a pager, a numeric start `s` numbers row `i` as `s + i`; any other start as `i + 1`. */
  lemma RenderUnpaged(counterStart: Value, pager: Pager, rowIndex: int)
    requires !pager.usePager
    ensures IsNumeric(counterStart) ==> Render(counterStart, pager, rowIndex) == NumericValue(counterStart) + rowIndex
    ensures !IsNumeric(counterStart) ==> Render(counterStart, pager, rowIndex) == rowIndex + 1
  {
  }

  /** With a pager, the rows of earlier pages and the offset come first. */
  lemma RenderPaged(counterStart: Value, pager: Pager, rowIndex: int)
    requires pager.usePager
    ensures Render(counterStart, pager, rowIndex)
      == StartCount(counterStart) + pager.itemsPerPage * pager.currentPage + pager.offset + rowIndex + 1
  {
  }

  /** With the default start, the first row of the first page is numbered 1. */
  lemma DefaultStartFirstRow(parent: OptionDefinitions, pager: Pager)
    requires !pager.usePager || (pager.currentPage == 0 && pager.offset == 0)
    ensures Render(DefaultOf(OptionDefinition(parent), "counter_start").value, pager, 0) == 1
  {
    assert DefaultOf(OptionDefinition(parent), "counter_start").value == Int(1);
  }

  /** Consecutive rows get consecutive numbers. */
  lemma RenderNextRow(counterStart: Value, pager: Pager, rowIndex: int)
    ensures Render(counterStart, pager, rowIndex + 1) == Render(counterStart, pager, rowIndex) + 1
  {
  }

  /** The numbering runs on from the last row of a full page to the first row of the next. */
  lemma RenderAcrossPages(counterStart: Value, pager: Pager)
    requires pager.usePager
    ensures Render(counterStart, pager, pager.itemsPerPage - 1) + 1
      == Render(counterStart, pager.(currentPage := pager.currentPage + 1), 0)
  {
    assert pager.itemsPerPage * (pager.currentPage + 1) == pager.itemsPerPage * pager.currentPage + pager.itemsPerPage;
  }

  /** A start that is not numeric counts as if it were 1. */
  lemma NonNumericStartIsOne(counterStart: Value, pager: Pager, rowIndex: int)
    requires !IsNumeric(counterStart)
    ensures Render(counterStart, pager, rowIndex) == Render(Int(1), pager, rowIndex)
  {
  }

  /** A start given as an integer literal counts like the integer it spells. */
  lemma TextStartIsNumber(text: string, pager: Pager, rowIndex: int)
    requires IsIntegerText(text)
    ensures Render(Str(text), pager, rowIndex) == Render(Int(NumericValue(Str(text))), pager, rowIndex)
  {
  }
}
