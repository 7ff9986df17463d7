/** How the two versions of the app relate where they do the same job. */
module Versions {
  import opened Calendar
  import opened Ledger
  import DigitalPrintingApp
  import App

  /** Digital_Printing_App.py's column list is app.py's with TempDate added. */
  lemma ColumnListsDiffer()
    ensures DigitalPrintingApp.AllColumns == App.AllColumns + [TempDate]
    ensures TempDate !in App.AllColumns
  {
    App.InSheetListed(TempDate);
  }

  /** The empty-selection special case of Digital_Printing_App.py changes no
      slot: both versions fill the ten slots alike. */
  lemma IssueSlotsAgree(selected: seq<string>)
    ensures forall k | 1 <= k <= IssueSlotCount :: DigitalPrintingApp.IssueSlots(selected)[k - 1] == App.IssueSlot(selected, k)
  {
  }
}
