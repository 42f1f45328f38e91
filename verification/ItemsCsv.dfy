/**
 The catalog item master through a CSV file: one row per item, read back as a create, an update of the
 stored item, or a rejection. The file carries an item's authoring fields and never a price.
 */
module ItemsCsv {
  import opened Outcomes
  import opened CsvText
  import opened Ulid

  datatype Status = Active | Archived

  datatype CatalogItem = CatalogItem(
    id: Id,
    tenant: Id,
    name: string,
    translations: map<string, string>,
    taxClass: Id,
    category: Option<Id>,
    subcategory: Option<Id>,
    course: Option<Id>,
    image: Option<Id>,
    status: Status)

  /** An item with the version it was read at. */
  datatype Versioned = Versioned(record: CatalogItem, etag: string)

  type Row = seq<string>

  const ITEM_HEADER: Row := ["menu_item_id", "name", "status", "tax_class_id", "item_category_id",
                             "item_subcategory_id", "image_ref"]

  // --- Export --------------------------------------------------------------------------------------

  function StatusToken(status: Status): string {
    if status == Active then "active" else "archived"
  }

  function IdCell(id: Option<Id>): string {
    if id.None? then "" else Text(id.value)
  }

  function ItemRow(item: CatalogItem): Row {
    [Text(item.id), EscapeFormula(item.name), StatusToken(item.status), Text(item.taxClass),
     IdCell(item.category), IdCell(item.subcategory), IdCell(item.image)]
  }

  method Export(items: seq<CatalogItem>) returns (file: seq<Row>)
    ensures |file| == 1 + |items| && file[0] == ITEM_HEADER
    ensures forall i :: 0 <= i < |items| ==> file[i + 1] == ItemRow(items[i])
  {
    file := [ITEM_HEADER];
    for i := 0 to |items|
      invariant |file| == i + 1 && file[0] == ITEM_HEADER
      invariant forall j :: 0 <= j < i ==> file[j + 1] == ItemRow(items[j])
    {
      file := file + [ItemRow(items[i])];
    }
  }

  // --- One row ---------------------------------------------------------------------------------------

  datatype Reason =
    | MissingName
    | NotAStatus(token: string)
    | TaxClassNotAnId
    | UnknownTaxClass
    | NotAnId(what: string)
    | UnknownReference(what: string)
    | UnknownItem

  /** The ids a row may reference. */
  datatype References = References(taxClasses: seq<Id>, categories: seq<Id>, subcategories: seq<Id>)

  datatype Fields = Fields(name: string, status: Status, taxClass: Id, category: Option<Id>,
                           subcategory: Option<Id>, image: Option<Id>)

  datatype Upsert = Create(fields: Fields) | Update(item: CatalogItem, expected: string)

  function Cell(row: Row, column: nat): string {
    if column < |row| then Trim(row[column]) else ""
  }

  function StatusFromToken(token: string): Option<Status> {
    if token == "active" then Some(Active) else if token == "archived" then Some(Archived) else None
  }

  function ParseId(cell: string): Option<Id> {
    var parsed := Parse(cell);
    if parsed.None? then None
    else
      ParsedText(cell);
      Some(parsed.value)
  }

  function OptionalId(cell: string, known: seq<Id>, what: string): Result<Option<Id>, Reason> {
    if cell == "" then Ok(None)
    else
      var parsed := ParseId(cell);
      if parsed.None? then Err(NotAnId(what))
      else if parsed.value !in known then Err(UnknownReference(what))
      else Ok(parsed)
  }

  function ImageId(cell: string): Result<Option<Id>, Reason> {
    if cell == "" then Ok(None)
    else
      var parsed := ParseId(cell);
      if parsed.None? then Err(NotAnId("image_ref")) else Ok(parsed)
  }

  /** The row's fields once every cell parses and every reference is known, or the first reason it is
      rejected. */
  function ReadFields(row: Row, known: References): Result<Fields, Reason> {
    var name := UnescapeFormula(Cell(row, 1));
    if name == "" then Err(MissingName)
    else
      var status := StatusFromToken(Cell(row, 2));
      if status.None? then Err(NotAStatus(Cell(row, 2)))
      else
        var taxClass := ParseId(Cell(row, 3));
        if taxClass.None? then Err(TaxClassNotAnId)
        else if taxClass.value !in known.taxClasses then Err(UnknownTaxClass)
        else
          match OptionalId(Cell(row, 4), known.categories, "category")
          case Err(reason) => Err(reason)
          case Ok(category) =>
            match OptionalId(Cell(row, 5), known.subcategories, "sub-category")
            case Err(reason) => Err(reason)
            case Ok(subcategory) =>
              match ImageId(Cell(row, 6))
              case Err(reason) => Err(reason)
              case Ok(image) => Ok(Fields(name, status.value, taxClass.value, category, subcategory, image))
  }

  /** The stored item whose id is written `text`; the last one listed. */
  function Find(existing: seq<Versioned>, text: string): (found: Option<Versioned>)
    ensures found.Some? ==> found.value in existing && Text(found.value.record.id) == text
    ensures found.None? ==> forall i :: 0 <= i < |existing| ==> Text(existing[i].record.id) != text
  {
    if existing == [] then None
    else
      var last := existing[|existing| - 1];
      if Text(last.record.id) == text then Some(last) else Find(existing[..|existing| - 1], text)
  }

  function Applied(stored: CatalogItem, tenant: Id, fields: Fields): CatalogItem {
    stored.(tenant := tenant, name := fields.name, status := fields.status, taxClass := fields.taxClass,
            category := fields.category, subcategory := fields.subcategory, image := fields.image)
  }

  function UpsertFor(id: string, fields: Fields, existing: seq<Versioned>, tenant: Id): Result<Upsert, Reason> {
    if id == "" then Ok(Create(fields))
    else match Find(existing, id)
         case None => Err(UnknownItem)
         case Some(stored) => Ok(Update(Applied(stored.record, tenant, fields), stored.etag))
  }

  function ReadRow(row: Row, tenant: Id, existing: seq<Versioned>, known: References): Result<Upsert, Reason> {
    match ReadFields(row, known)
    case Err(reason) => Err(reason)
    case Ok(fields) => UpsertFor(Cell(row, 0), fields, existing, tenant)
  }

  // --- The file ----------------------------------------------------------------------------------------

  datatype Action = Creates | Updates | Rejects(reason: Reason)

  datatype Report = Report(rows: seq<(string, Action)>, creates: nat, updates: nat, rejects: nat)

  datatype ImportError = BadHeader

  predicate GoodHeader(file: seq<Row>) {
    file != [] && |file[0]| == |ITEM_HEADER| && forall i :: 0 <= i < |file[0]| ==> Trim(file[0][i]) == ITEM_HEADER[i]
  }

  /** What names the row in the report. */
  function RowKey(row: Row): string {
    if Cell(row, 0) == "" then UnescapeFormula(Cell(row, 1)) else Cell(row, 0)
  }

  function ActionOf(reading: Result<Upsert, Reason>): Action {
    match reading
    case Err(reason) => Rejects(reason)
    case Ok(Create(_)) => Creates
    case Ok(Update(_, _)) => Updates
  }

  /** What the readable rows would write, in file order. */
  function Accepted(readings: seq<Result<Upsert, Reason>>): seq<Upsert> {
    if readings == [] then []
    else Accepted(readings[..|readings| - 1]) +
         if readings[|readings| - 1].Ok? then [readings[|readings| - 1].value] else []
  }

  function Count(rows: seq<(string, Action)>, wanted: Action -> bool): nat {
    if rows == [] then 0
    else Count(rows[..|rows| - 1], wanted) + if wanted(rows[|rows| - 1].1) then 1 else 0
  }

  function ReportOf(rows: seq<(string, Action)>): Report {
    Report(rows, Count(rows, (action: Action) => action.Creates?), Count(rows, (action: Action) => action.Updates?),
           Count(rows, (action: Action) => action.Rejects?))
  }

  function Readings(rows: seq<Row>, tenant: Id, existing: seq<Versioned>,
                    known: References): seq<Result<Upsert, Reason>> {
    seq(|rows|, i requires 0 <= i < |rows| => ReadRow(rows[i], tenant, existing, known))
  }

  /** The verdicts and the writes of rows already read. */
  method Collect(keys: seq<string>, readings: seq<Result<Upsert, Reason>>)
    returns (upserts: seq<Upsert>, rows: seq<(string, Action)>)
    requires |keys| == |readings|
    ensures upserts == Accepted(readings)
    ensures |rows| == |readings| && forall i :: 0 <= i < |rows| ==> rows[i] == (keys[i], ActionOf(readings[i]))
  {
    upserts, rows := [], [];
    for n := 0 to |readings|
      invariant |rows| == n && forall i :: 0 <= i < n ==> rows[i] == (keys[i], ActionOf(readings[i]))
      invariant upserts == Accepted(readings[..n])
    {
      assert readings[..n + 1][..n] == readings[..n];
      if readings[n].Ok? {
        upserts := upserts + [readings[n].value];
      }
      rows := rows + [(keys[n], ActionOf(readings[n]))];
    }
    assert readings[..|readings|] == readings;
  }

  function Keys(rows: seq<Row>): seq<string> {
    seq(|rows|, i requires 0 <= i < |rows| => RowKey(rows[i]))
  }

  /** The verdict of every row, in file order, and what the rows that are not rejected would write. */
  method ParseItems(file: seq<Row>, tenant: Id, existing: seq<Versioned>, known: References)
    returns (result: Result<(seq<Upsert>, Report), ImportError>)
    ensures result.Ok? <==> GoodHeader(file)
    ensures result.Ok? ==>
              var (upserts, report) := result.value;
              var readings := Readings(file[1..], tenant, existing, known);
              && upserts == Accepted(readings)
              && |report.rows| == |readings|
              && (forall i :: 0 <= i < |readings| ==> report.rows[i] == (Keys(file[1..])[i], ActionOf(readings[i])))
              && report == ReportOf(report.rows)
  {
    if !GoodHeader(file) {
      return Err(BadHeader);
    }
    var upserts, rows := Collect(Keys(file[1..]), Readings(file[1..], tenant, existing, known));
    return Ok((upserts, ReportOf(rows)));
  }

  /** The three counts partition the rows, and the writes are the rows that are not rejected. */
  lemma {:induction false} CountsPartition(readings: seq<Result<Upsert, Reason>>, rows: seq<(string, Action)>)
    requires |rows| == |readings| && forall i :: 0 <= i < |rows| ==> rows[i].1 == ActionOf(readings[i])
    ensures var report := ReportOf(rows);
            && report.creates + report.updates + report.rejects == |rows|
            && |Accepted(readings)| == report.creates + report.updates
  {
    if rows != [] {
      CountsPartition(readings[..|rows| - 1], rows[..|rows| - 1]);
    }
  }

  // --- What an import cannot do ---------------------------------------------------------------------------

  /** An update writes an item the tenant has, at the version it was read, and keeps what the file does
      not carry: its id, its per-locale names and its course. No row invents an id. */
  lemma UpdateKeepsTheRest(row: Row, tenant: Id, existing: seq<Versioned>, known: References)
    requires ReadRow(row, tenant, existing, known).Ok?
    ensures var upsert := ReadRow(row, tenant, existing, known).value;
            if Cell(row, 0) == "" then upsert.Create?
            else && upsert.Update?
                 && exists stored :: stored in existing && Text(stored.record.id) == Cell(row, 0)
                      && upsert.expected == stored.etag && upsert.item.id == stored.record.id
                      && upsert.item.translations == stored.record.translations
                      && upsert.item.course == stored.record.course
  {
  }

  // --- Round trip -------------------------------------------------------------------------------------------

  lemma NoBlankTrims(text: string)
    requires forall i :: 0 <= i < |text| ==> !Blank(text[i])
    ensures Trim(text) == text
  {
    TrimLaws(text);
  }

  lemma {:induction false} DigitsNotBlank(n: nat, digits: nat)
    ensures forall i :: 0 <= i < digits ==> !Blank(DigitsOf(n, digits)[i])
  {
    if digits > 0 {
      DigitsNotBlank(n / 32, digits - 1);
      assert !Blank(EncodeDigit(n % 32));
    }
  }

  lemma IdReads(id: Id)
    ensures Trim(Text(id)) == Text(id) && Text(id) != "" && ParseId(Text(id)) == Some(id)
  {
    DigitsNotBlank(id, ENCODED_LEN);
    NoBlankTrims(Text(id));
    TextRoundTrip(id);
  }

  lemma StatusReads(status: Status)
    ensures StatusFromToken(Trim(StatusToken(status))) == Some(status)
  {
    TrimLaws(StatusToken(status));
    assert |"active"| != |"archived"|;
  }

  predicate KnownOrNone(id: Option<Id>, known: seq<Id>) {
    id.Some? ==> id.value in known
  }

  lemma OptionalIdReads(id: Option<Id>, known: seq<Id>, what: string)
    ensures OptionalId(Trim(IdCell(id)), known, what) ==
            if KnownOrNone(id, known) then Ok(id) else Err(UnknownReference(what))
    ensures ImageId(Trim(IdCell(id))) == Ok(id)
  {
    if id.Some? {
      IdReads(id.value);
    }
  }

  /** The row of an item reads as its fields, the name as its cell is read, when its references are
      known. */
  lemma ItemRowReads(item: CatalogItem, known: References)
    ensures var name := ReadCell(EscapeFormula(item.name));
            var read := ReadFields(ItemRow(item), known);
            && Cell(ItemRow(item), 0) == Text(item.id)
            && (read.Ok? <==> name != "" && item.taxClass in known.taxClasses
                              && KnownOrNone(item.category, known.categories)
                              && KnownOrNone(item.subcategory, known.subcategories))
            && (read.Ok? ==> read.value == Fields(name, item.status, item.taxClass, item.category,
                                                  item.subcategory, item.image))
  {
    hide Trim, EscapeFormula, UnescapeFormula, Text, ParseId, OptionalId, ImageId, IdCell, StatusToken, StatusFromToken;
    var row := ItemRow(item);
    IdReads(item.id);
    IdReads(item.taxClass);
    StatusReads(item.status);
    OptionalIdReads(item.category, known.categories, "category");
    OptionalIdReads(item.subcategory, known.subcategories, "sub-category");
    OptionalIdReads(item.image, [], "image");
    assert Cell(row, 1) == Trim(EscapeFormula(item.name));
    assert Cell(row, 2) == Trim(StatusToken(item.status));
    assert Cell(row, 3) == Trim(Text(item.taxClass));
    assert Cell(row, 4) == Trim(IdCell(item.category));
    assert Cell(row, 5) == Trim(IdCell(item.subcategory));
    assert Cell(row, 6) == Trim(IdCell(item.image));
  }

  /** The item comes back from its own row: a name that is there and that a cell keeps, the importing
      tenant's own, and references the tenant has. */
  predicate Portable(item: CatalogItem, tenant: Id, known: References) {
    && item.name != "" && Kept(item.name)
    && item.tenant == tenant
    && item.taxClass in known.taxClasses
    && KnownOrNone(item.category, known.categories)
    && KnownOrNone(item.subcategory, known.subcategories)
  }

  /** An exported row imports as an update equal to the stored item in every field, those the file does
      not carry included, at its own version, exactly for an item that is portable. */
  lemma ExportedRowImports(stored: Versioned, tenant: Id, existing: seq<Versioned>, known: References)
    requires Find(existing, Text(stored.record.id)) == Some(stored)
    ensures ReadRow(ItemRow(stored.record), tenant, existing, known) == Ok(Update(stored.record, stored.etag)) <==>
            Portable(stored.record, tenant, known)
  {
    var item := stored.record;
    ItemRowReads(item, known);
    CellRoundTrip(item.name);
    IdReads(item.id);
    var name := ReadCell(EscapeFormula(item.name));
    var fields := Fields(name, item.status, item.taxClass, item.category, item.subcategory, item.image);
    if ReadFields(ItemRow(item), known).Ok? {
      assert ReadRow(ItemRow(item), tenant, existing, known) == Ok(Update(Applied(item, tenant, fields), stored.etag));
      assert Applied(item, tenant, fields) == item.(tenant := tenant, name := name);
    }
  }

  predicate DistinctItems(existing: seq<Versioned>) {
    forall i, j :: 0 <= i < j < |existing| ==> existing[i].record.id != existing[j].record.id
  }

  lemma {:induction false} FindsItself(existing: seq<Versioned>, at: nat)
    requires DistinctItems(existing) && at < |existing|
    ensures Find(existing, Text(existing[at].record.id)) == Some(existing[at])
  {
    var last := existing[|existing| - 1];
    TextRoundTrip(last.record.id);
    TextRoundTrip(existing[at].record.id);
    if at < |existing| - 1 {
      FindsItself(existing[..|existing| - 1], at);
    }
  }

  lemma {:induction false} AcceptedAll(readings: seq<Result<Upsert, Reason>>)
    requires forall i :: 0 <= i < |readings| ==> readings[i].Ok?
    ensures |Accepted(readings)| == |readings|
    ensures forall i :: 0 <= i < |readings| ==> Accepted(readings)[i] == readings[i].value
  {
    if readings != [] {
      AcceptedAll(readings[..|readings| - 1]);
    }
  }

  lemma HeaderReads(file: seq<Row>)
    requires file != [] && file[0] == ITEM_HEADER
    ensures GoodHeader(file)
  {
    forall i | 0 <= i < |ITEM_HEADER| ensures Trim(ITEM_HEADER[i]) == ITEM_HEADER[i] {
      TrimLaws(ITEM_HEADER[i]);
    }
  }

  function RowsOf(existing: seq<Versioned>): (rows: seq<Row>)
    ensures |rows| == |existing| && forall i :: 0 <= i < |existing| ==> rows[i] == ItemRow(existing[i].record)
  {
    seq(|existing|, i requires 0 <= i < |existing| => ItemRow(existing[i].record))
  }

  /** Of an exported master's rows, those of portable items, and no others, read as an update equal to the item
      as stored, at its own version. */
  lemma ExportedRowsImport(existing: seq<Versioned>, tenant: Id, known: References)
    requires DistinctItems(existing)
    ensures var readings := Readings(RowsOf(existing), tenant, existing, known);
            forall i :: 0 <= i < |existing| ==>
              (readings[i] == Ok(Update(existing[i].record, existing[i].etag)) <==>
                  Portable(existing[i].record, tenant, known))
  {
    hide ReadRow, ItemRow, Portable, Find;
    forall i | 0 <= i < |existing|
      ensures Readings(RowsOf(existing), tenant, existing, known)[i] ==
              Ok(Update(existing[i].record, existing[i].etag)) <==>
              Portable(existing[i].record, tenant, known)
    {
      FindsItself(existing, i);
      ExportedRowImports(existing[i], tenant, existing, known);
    }
  }

  /** An exported master imported against the items it was made from: the rows of portable items, and no
      others, are updates equal to the item as stored; and when every item is portable that is one update per
      item, in order, with nothing rejected. */
  method RoundTrip(existing: seq<Versioned>, tenant: Id, known: References)
    returns (upserts: seq<Upsert>, report: Report)
    requires DistinctItems(existing)
    ensures var readings := Readings(RowsOf(existing), tenant, existing, known);
            && upserts == Accepted(readings)
            && |report.rows| == |existing|
            && forall i :: 0 <= i < |existing| ==>
                 && report.rows[i].1 == ActionOf(readings[i])
                 && (readings[i] == Ok(Update(existing[i].record, existing[i].etag)) <==>
                      Portable(existing[i].record, tenant, known))
    ensures (forall i :: 0 <= i < |existing| ==> Portable(existing[i].record, tenant, known)) ==>
              && |upserts| == |existing|
              && (forall i :: 0 <= i < |existing| ==> upserts[i] == Update(existing[i].record, existing[i].etag))
              && report.rejects == 0 && report.creates == 0
  {
    var items := seq(|existing|, i requires 0 <= i < |existing| => existing[i].record);
    var file := Export(items);
    HeaderReads(file);
    forall i | 0 <= i < |existing| ensures file[1..][i] == RowsOf(existing)[i] {
      assert items[i] == existing[i].record;
    }
    assert file[1..] == RowsOf(existing);
    ExportedRowsImport(existing, tenant, known);
    hide ReadRow, ItemRow, Portable, Find;
    var parsed := ParseItems(file, tenant, existing, known);
    upserts, report := parsed.value.0, parsed.value.1;
    if forall i :: 0 <= i < |existing| ==> Portable(existing[i].record, tenant, known) {
      AcceptedAll(Readings(RowsOf(existing), tenant, existing, known));
      AllUpdates(report.rows);
    }
  }

  lemma {:induction false} AllUpdates(rows: seq<(string, Action)>)
    requires forall i :: 0 <= i < |rows| ==> rows[i].1.Updates?
    ensures ReportOf(rows).creates == 0 && ReportOf(rows).rejects == 0
  {
    if rows != [] {
      AllUpdates(rows[..|rows| - 1]);
    }
  }
}
