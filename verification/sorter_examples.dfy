/**
 A concrete document of the shape an API description has, as a check that the
 shapes `sort` needs admit ordinary documents.
 */
module SorterExamples {
  import opened JsonValues
  import opened XRowOrder
  import opened Sorter

  /** An ordinary document, one path with one operation and one response, is
      one `sort` accepts. */
  lemma OrdinaryDocumentShaped()
    ensures SpecsShaped(Obj([Member("paths", Obj([
      Member("/pets", Obj([
        Member("get", Obj([
          Member("responses", Obj([Member("200", Obj([Member(XRow, Num(3))])), Member(XRow, Num(2))])),
          Member(XRow, Num(1))])),
        Member(XRow, Num(1))])),
      Member(XRow, Num(0))]))]))
  {
  }
}
