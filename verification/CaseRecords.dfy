/** The preserved rows of a Case and the identifiers made from them. */
module CaseRecords {
  import opened JsonValues
  import EvidenceRevision

  /** `row.id`: missing, an integer, or anything else as a string prints it. */
  datatype RowId = NoId | Integer(n: int) | Other(printed: Text)

  /** A preserved row. `handle` is the identity of the row object; rows are never edited.
      `eventRef` is empty when there is none; `path` is `fields.caminho`, empty when missing;
      `content` stands for the timestamp, source, code and message. */
  datatype Row = Row(handle: nat, eventRef: Text, id: RowId, path: Text, content: Json)

  function Printed(n: int): Text {
    if n >= 0 then EvidenceRevision.Digits(n) else Ascii("-") + EvidenceRevision.Digits(-n)
  }

  /** `e:${item.id}:${row.event_ref || (row.id ?? index)}`. */
  function TimelineId(itemId: Text, row: Row, index: nat): Text {
    Ascii("e:") + itemId + Ascii(":") +
    if row.eventRef != [] then row.eventRef
    else match row.id
         case NoId => Printed(index)
         case Integer(n) => Printed(n)
         case Other(printed) => printed
  }
}
