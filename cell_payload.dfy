/**
 * The write payload of one archive cell (the `cellAdd` object built inside the
 * row-assembly loop of createVersionBackup in src/smartsheet-workflows.ts).
 *
 * A payload carries its column id, then exactly one of formula, value or objectValue,
 * and optionally format, conditional format, links, image and validation flags.
 * Every optional property is None when the source leaves it unset or deletes it.
 */
module CellPayload {
  import opened JsValues
  import opened SheetModel

  datatype CellAdd = CellAdd(
    columnId: Id,
    formula: Option<Json>,
    value: Option<Json>,
    format: Option<Json>,
    conditionalFormat: Option<Json>,
    hyperlink: Option<Json>,
    image: Option<Json>,
    linkInFromCell: Option<Json>,
    linksOutToCells: Option<Json>,
    objectValue: Option<Json>,
    overrideValidation: Option<Json>,
    strict: Option<Json>)

  /** One row to append to the archive sheet; the workflow always appends at the bottom. */
  datatype RowAdd = RowAdd(toBottom: bool, cells: seq<CellAdd>)

  /** The formula every "Duration" column gets. */
  const DurationFormula: string := "=[Start Date]@row - [End Date]@row"

  /** A cell with nothing set: what `sourceCell?.x` reads when there is no source cell. */
  const NoCell: Cell := Cell("", None, None, None, None, None, None)

  function Current(source: Option<Cell>): (c: Cell)
    ensures source.None? ==> c == NoCell
    ensures source.Some? ==> c == source.value
  {
    if source.Some? then source.value else NoCell
  }

  /** `a || b` on two optional properties, keeping "unset" when neither is truthy. */
  function FirstTruthy(a: Option<Json>, b: Option<Json>): (r: Option<Json>)
    ensures FieldTruthy(a) ==> r == a
    ensures !FieldTruthy(a) && FieldTruthy(b) ==> r == b
    ensures !FieldTruthy(a) && !FieldTruthy(b) ==> r.None?
  {
    if FieldTruthy(a) then a else if FieldTruthy(b) then b else None
  }

  /** The historical entry has a truthy formula. */
  predicate HistoryHasFormula(history: Option<CellFields>)
  {
    history.Some? && FieldTruthy(history.value.formula)
  }

  /** `sourceCell?.formula !== undefined`: a formula property, even a null one, is present. */
  predicate SourceHasFormula(source: Option<Cell>)
  {
    Current(source).formula.Some?
  }

  /** The formula branch is taken. */
  predicate TakesFormula(column: Column, history: Option<CellFields>, source: Option<Cell>, includeFormulas: bool)
  {
    column.title == "Duration" || (includeFormulas && (HistoryHasFormula(history) || SourceHasFormula(source)))
  }

  /** `historicalValue.value !== undefined ? historicalValue.value : null` */
  function ValueOrNull(history: CellFields): (v: Json)
    ensures history.value.Some? ==> v == history.value.value
    ensures history.value.None? ==> v == JNull
  {
    if history.value.Some? then history.value.value else JNull
  }

  /** Exactly one of formula, value and objectValue is set. */
  predicate OneContent(c: CellAdd)
  {
    || (c.formula.Some? && c.value.None? && c.objectValue.None?)
    || (c.formula.None? && c.value.Some? && c.objectValue.None?)
    || (c.formula.None? && c.value.None? && c.objectValue.Some?)
  }

  /** The properties the service refuses next to a formula are absent when there is one. */
  predicate NoLinksWithFormula(c: CellAdd)
  {
    c.formula.Some? ==>
      c.hyperlink.None? && c.image.None? && c.linkInFromCell.None? && c.linksOutToCells.None? && c.objectValue.None?
  }

  predicate WellFormedCell(c: CellAdd)
  {
    OneContent(c) && NoLinksWithFormula(c)
  }

  /** The content the workflow sets first: the "Duration" formula, a formula, the value or null. */
  function Content(targetColumnId: Id, column: Column, history: Option<CellFields>, cur: Cell,
                   includeFormulas: bool): CellAdd
  {
    var empty := CellAdd(targetColumnId, None, None, None, None, None, None, None, None, None, None, None);
    if column.title == "Duration" then empty.(formula := Some(JStr(DurationFormula)))
    else if includeFormulas && HistoryHasFormula(history) then empty.(formula := history.value.formula)
    else if includeFormulas && cur.formula.Some? then empty.(formula := cur.formula)
    else if history.Some? then empty.(value := Some(ValueOrNull(history.value)))
    else empty.(value := Some(JNull))
  }

  /** Attaches the format (history, then current cell, then column) and the conditional format. */
  function WithFormats(c: CellAdd, h: CellFields, cur: Cell, column: Column): CellAdd
  {
    var format := FirstTruthy(h.format, FirstTruthy(cur.format, column.format));
    c.(format := if format.Some? then format else c.format,
       conditionalFormat := if FieldTruthy(h.conditionalFormat) then h.conditionalFormat else c.conditionalFormat)
  }

  /** Attaches the properties that may not accompany a formula; an objectValue deletes the value. */
  function WithLinks(c: CellAdd, h: CellFields, cur: Cell): CellAdd
  {
    var hyperlink := FirstTruthy(h.hyperlink, cur.hyperlink);
    var image := FirstTruthy(h.image, cur.image);
    var objectValue := FirstTruthy(h.objectValue, cur.objectValue);
    c.(hyperlink := if hyperlink.Some? then hyperlink else c.hyperlink,
       image := if image.Some? then image else c.image,
       linkInFromCell := if FieldTruthy(h.linkInFromCell) then h.linkInFromCell else c.linkInFromCell,
       linksOutToCells := if FieldTruthy(h.linksOutToCells) then h.linksOutToCells else c.linksOutToCells,
       objectValue := if objectValue.Some? then objectValue else c.objectValue,
       value := if objectValue.Some? then None else c.value)
  }

  /** Copies the validation flags that the historical entry defines. */
  function WithValidation(c: CellAdd, h: CellFields): CellAdd
  {
    c.(overrideValidation := if h.overrideValidation.Some? then h.overrideValidation else c.overrideValidation,
       strict := if h.strict.Some? then h.strict else c.strict)
  }

  /**
   * The payload for one cell: `column` is the source column, `targetColumnId` its id in
   * the archive, `history` the fields in effect at the target time (None when there are
   * none) and `source` the cell of the live sheet (None when the row has no such cell).
   */
  function CellPayload(targetColumnId: Id, column: Column, history: Option<CellFields>, source: Option<Cell>,
                       includeFormulas: bool): (c: CellAdd)
    ensures c.columnId == targetColumnId
    ensures WellFormedCell(c)
    // content: the "Duration" formula, then a formula (historical preferred), then a value, then null
    ensures column.title == "Duration" ==> c.formula == Some(JStr(DurationFormula)) && c.value.None?
    ensures column.title != "Duration" && includeFormulas && HistoryHasFormula(history) ==>
              c.formula == history.value.formula
    ensures column.title != "Duration" && includeFormulas && !HistoryHasFormula(history) && SourceHasFormula(source) ==>
              c.formula == Current(source).formula
    ensures !TakesFormula(column, history, source, includeFormulas) ==> c.formula.None?
    ensures !TakesFormula(column, history, source, includeFormulas) && c.objectValue.None? ==>
              c.value == Some(if history.Some? then ValueOrNull(history.value) else JNull)
    // attributes only come with a historical entry
    ensures history.None? ==>
              c.format.None? && c.conditionalFormat.None? && c.hyperlink.None? && c.image.None?
              && c.linkInFromCell.None? && c.linksOutToCells.None? && c.objectValue.None?
              && c.overrideValidation.None? && c.strict.None?
    ensures history.Some? ==>
              c.format == FirstTruthy(history.value.format, FirstTruthy(Current(source).format, column.format))
              && c.conditionalFormat == FirstTruthy(history.value.conditionalFormat, None)
              && c.overrideValidation == history.value.overrideValidation
              && c.strict == history.value.strict
    ensures history.Some? && c.formula.None? ==>
              c.hyperlink == FirstTruthy(history.value.hyperlink, Current(source).hyperlink)
              && c.image == FirstTruthy(history.value.image, Current(source).image)
              && c.linkInFromCell == FirstTruthy(history.value.linkInFromCell, None)
              && c.linksOutToCells == FirstTruthy(history.value.linksOutToCells, None)
              && c.objectValue == FirstTruthy(history.value.objectValue, Current(source).objectValue)
  {
    var cur := Current(source);
    var content := Content(targetColumnId, column, history, cur, includeFormulas);
    if history.None? then content
    else
      var h := history.value;
      var formatted := WithFormats(content, h, cur, column);
      WithValidation(if content.formula.Some? then formatted else WithLinks(formatted, h, cur), h)
  }

  /**
   * The payload built the way the workflow builds it: set the content, then attach the
   * attributes one by one, deleting the value again when an objectValue is attached.
   */
  method BuildCellAdd(targetColumnId: Id, column: Column, history: Option<CellFields>, source: Option<Cell>,
                      includeFormulas: bool) returns (c: CellAdd)
    ensures c == CellPayload(targetColumnId, column, history, source, includeFormulas)
  {
    var cur := Current(source);
    c := CellAdd(targetColumnId, None, None, None, None, None, None, None, None, None, None, None);
    if column.title == "Duration" {
      c := c.(formula := Some(JStr(DurationFormula)));
    } else if includeFormulas && (HistoryHasFormula(history) || cur.formula.Some?) {
      c := c.(formula := if HistoryHasFormula(history) then history.value.formula else cur.formula);
    } else if history.Some? {
      c := c.(value := Some(ValueOrNull(history.value)));
    } else {
      c := c.(value := Some(JNull));
    }
    assert c == Content(targetColumnId, column, history, cur, includeFormulas);
    if history.Some? {
      var h := history.value;
      var hasFormula := c.formula.Some?;
      c := AttachFormats(c, h, cur, column);
      if !hasFormula {
        c := AttachLinks(c, h, cur);
      }
      if h.overrideValidation.Some? {
        c := c.(overrideValidation := h.overrideValidation);
      }
      if h.strict.Some? {
        c := c.(strict := h.strict);
      }
    }
  }

  method AttachFormats(c0: CellAdd, h: CellFields, cur: Cell, column: Column) returns (c: CellAdd)
    ensures c == WithFormats(c0, h, cur, column)
  {
    c := c0;
    if FieldTruthy(h.format) {
      c := c.(format := h.format);
    } else if FieldTruthy(cur.format) {
      c := c.(format := cur.format);
    } else if FieldTruthy(column.format) {
      c := c.(format := column.format);
    }
    if FieldTruthy(h.conditionalFormat) {
      c := c.(conditionalFormat := h.conditionalFormat);
    }
  }

  method AttachLinks(c0: CellAdd, h: CellFields, cur: Cell) returns (c: CellAdd)
    ensures c == WithLinks(c0, h, cur)
  {
    c := c0;
    if FieldTruthy(h.hyperlink) {
      c := c.(hyperlink := h.hyperlink);
    } else if FieldTruthy(cur.hyperlink) {
      c := c.(hyperlink := cur.hyperlink);
    }
    if FieldTruthy(h.image) {
      c := c.(image := h.image);
    } else if FieldTruthy(cur.image) {
      c := c.(image := cur.image);
    }
    if FieldTruthy(h.linkInFromCell) {
      c := c.(linkInFromCell := h.linkInFromCell);
    }
    if FieldTruthy(h.linksOutToCells) {
      c := c.(linksOutToCells := h.linksOutToCells);
    }
    if FieldTruthy(h.objectValue) {
      c := c.(objectValue := h.objectValue, value := None);
    } else if FieldTruthy(cur.objectValue) {
      c := c.(objectValue := cur.objectValue, value := None);
    }
  }
}
