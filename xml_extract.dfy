/** The two extractors that turn one day's XML document into a small table of texts:
    parse_intertie_xml (one row per schedule entry) and parse_load_xml (one row per
    delivery hour). Each is a loop over the elements a path selects; each is proved
    against a function that states the table it builds. */
module XmlExtract {
  import opened Wrappers
  import opened Xml
  import opened SchemaValidator

  /** One row of the intertie table: the Hour, Import and Export column texts. */
  datatype IntertieRow = IntertieRow(hour: Option<string>, imported: Option<string>, exported: Option<string>)

  /** The children of every {IMO}Schedules child of a {IMO}Totals element below root, in document
      order: the path './/Totals/Schedules' followed by a star step. */
  function ScheduleEntries(root: Element): seq<Element>
  {
    Children(ChildrenNamed(Named(Descendants(root), ImoNamespace, "Totals"), ImoNamespace, "Schedules"))
  }

  /** The texts of the elements of es whose local name is Hour, Import or Export, in order,
      whatever their namespace. */
  function LeafTexts(es: seq<Element>): (texts: seq<Option<string>>)
    ensures |texts| <= |es|
  {
    if es == [] then []
    else
      var last := es[|es| - 1];
      LeafTexts(es[..|es| - 1]) + (if last.local in IntertieLeaves then [last.text] else [])
  }

  /** tag.split('}')[1] needs a namespace part; it raises IndexError on a tag without one. */
  predicate AllQualified(es: seq<Element>)
  {
    forall i :: 0 <= i < |es| ==> es[i].ns != ""
  }

  /** The raw row of each schedule entry: the texts met while iterating over it. */
  function RawRows(entries: seq<Element>): (rows: seq<seq<Option<string>>>)
    ensures |rows| == |entries|
    ensures forall i :: 0 <= i < |entries| ==> rows[i] == LeafTexts(Iter(entries[i]))
  {
    if entries == [] then [] else RawRows(entries[..|entries| - 1]) + [LeafTexts(Iter(entries[|entries| - 1]))]
  }

  function MaxLength(rows: seq<seq<Option<string>>>): (n: nat)
    ensures forall i :: 0 <= i < |rows| ==> |rows[i]| <= n
    ensures rows != [] ==> exists i :: 0 <= i < |rows| && |rows[i]| == n
  {
    if rows == [] then 0
    else
      var rest := MaxLength(rows[1..]);
      assert forall i :: 1 <= i < |rows| ==> rows[i] == rows[1..][i - 1];
      if |rows[0]| >= rest then |rows[0]| else rest
  }

  function Cell(row: seq<Option<string>>, k: nat): Option<string>
  {
    if k < |row| then row[k] else None
  }

  /** pd.DataFrame(rows, columns=['Hour', 'Import', 'Export']): shorter rows are padded with
      missing values; the frame is refused (ValueError) unless the longest row has exactly
      three values. No rows at all give an empty frame. */
  function IntertieFrame(rows: seq<seq<Option<string>>>): (r: Result<seq<IntertieRow>>)
    ensures r.Ok? <==> rows == [] || MaxLength(rows) == 3
    ensures r.Ok? ==> |r.value| == |rows| && forall i :: 0 <= i < |rows| ==>
              r.value[i] == IntertieRow(Cell(rows[i], 0), Cell(rows[i], 1), Cell(rows[i], 2))
  {
    if rows != [] && MaxLength(rows) != 3 then Err(ValueError)
    else Ok(seq(|rows|, i requires 0 <= i < |rows| => IntertieRow(Cell(rows[i], 0), Cell(rows[i], 1), Cell(rows[i], 2))))
  }

  /** The table parse_intertie_xml returns for a parsed document. */
  function IntertieTable(root: Element): Result<seq<IntertieRow>>
  {
    var entries := ScheduleEntries(root);
    if exists i :: 0 <= i < |entries| && !AllQualified(Iter(entries[i])) then Err(IndexError)
    else IntertieFrame(RawRows(entries))
  }

  /** The intertie table succeeds exactly when every tag met has a namespace and the
      longest raw row has three texts (or there are no entries); row i is then built from
      the Hour, Import and Export texts of entry i. */
  lemma IntertieTableRows(root: Element)
    ensures var entries := ScheduleEntries(root);
      IntertieTable(root).Ok? <==>
        (forall i :: 0 <= i < |entries| ==> AllQualified(Iter(entries[i]))) &&
        (entries == [] || MaxLength(RawRows(entries)) == 3)
    ensures var entries := ScheduleEntries(root);
      IntertieTable(root).Ok? ==> (|IntertieTable(root).value| == |entries| &&
        forall i :: 0 <= i < |entries| ==>
          var texts := LeafTexts(Iter(entries[i]));
          IntertieTable(root).value[i] == IntertieRow(Cell(texts, 0), Cell(texts, 1), Cell(texts, 2)))
  {
  }

  /** The inner loop of parse_intertie_xml: walk one entry in pre-order, keeping the text
      of each Hour, Import or Export element; a tag without a namespace raises IndexError. */
  method EntryTexts(entry: Element) returns (r: Result<seq<Option<string>>>)
    ensures r.Ok? <==> AllQualified(Iter(entry))
    ensures r.Ok? ==> r.value == LeafTexts(Iter(entry))
    ensures r.Err? ==> r.error == IndexError
  {
    var nodes := Iter(entry);
    var row: seq<Option<string>> := [];
    var j := 0;
    while j < |nodes|
      invariant 0 <= j <= |nodes|
      invariant row == LeafTexts(nodes[..j])
      invariant AllQualified(nodes[..j])
    {
      if nodes[j].ns == "" {
        assert !AllQualified(nodes);
        return Err(IndexError);
      }
      if nodes[j].local in IntertieLeaves {
        row := row + [nodes[j].text];
      }
      assert nodes[..j + 1][..j] == nodes[..j];
      j := j + 1;
    }
    assert nodes[..j] == nodes;
    return Ok(row);
  }

  /** parse_intertie_xml: for each schedule entry, in order, append the texts of the Hour,
      Import and Export elements met in a pre-order walk over the entry. */
  method ParseIntertieXml(root: Element) returns (r: Result<seq<IntertieRow>>)
    ensures r == IntertieTable(root)
  {
    var entries := ScheduleEntries(root);
    var rows: seq<seq<Option<string>>> := [];
    var k := 0;
    while k < |entries|
      invariant 0 <= k <= |entries|
      invariant rows == RawRows(entries[..k])
      invariant forall i :: 0 <= i < k ==> AllQualified(Iter(entries[i]))
    {
      var row := EntryTexts(entries[k]);
      if row.Err? {
        return Err(IndexError);
      }
      assert entries[..k + 1][..k] == entries[..k];
      rows := rows + [row.value];
      k := k + 1;
    }
    assert entries[..k] == entries;
    r := IntertieFrame(rows);
  }

  /** One row of the load table: the delivery hour text and the EnergyMW texts of the
      three market quantities. */
  datatype LoadRow = LoadRow(hour: Option<string>, totalEnergy: Option<string>, totalLoss: Option<string>, totalLoad: Option<string>)

  /** './/{IESO}Energies/{IESO}HourlyConstrainedEnergy' */
  function HourlyBlocks(root: Element): seq<Element>
  {
    ChildrenNamed(Named(Descendants(root), IesoNamespace, "Energies"), IesoNamespace, "HourlyConstrainedEnergy")
  }

  /** findall('.//{IESO}Energies/{IESO}HourlyConstrainedEnergy/{IESO}DeliveryHour') */
  function DeliveryHours(root: Element): seq<Element>
  {
    ChildrenNamed(HourlyBlocks(root), IesoNamespace, "DeliveryHour")
  }

  /** The elements selected by
      './/Energies/HourlyConstrainedEnergy[DeliveryHour="hour"]/MQ[MarketQuantity="quantity"]/EnergyMW'
      (all in the IESO namespace), in document order. */
  function EnergyCells(root: Element, hour: string, quantity: string): seq<Element>
  {
    var blocks := WithChildText(HourlyBlocks(root), IesoNamespace, "DeliveryHour", hour);
    var quantities := WithChildText(ChildrenNamed(blocks, IesoNamespace, "MQ"), IesoNamespace, "MarketQuantity", quantity);
    ChildrenNamed(quantities, IesoNamespace, "EnergyMW")
  }

  /** The text an f-string puts into the path for x.text: the text itself, or "None". */
  function PathText(text: Option<string>): string
  {
    match text
    case Some(s) => s
    case None => "None"
  }

  /** The row for one DeliveryHour element: a double quote in its text is taken to break
      the quoted predicate value (SyntaxError); a quantity with no EnergyMW element makes .text fail
      on None (AttributeError); otherwise the first match's text for each quantity. */
  function LoadRowOf(root: Element, x: Element): (r: Result<LoadRow>)
  {
    var h := PathText(x.text);
    if '"' in h then Err(SyntaxError)
    else if exists q :: q in LoadLabels && EnergyCells(root, h, q) == [] then Err(AttributeError)
    else
      assert LoadLabels[0] in LoadLabels && LoadLabels[1] in LoadLabels && LoadLabels[2] in LoadLabels;
      Ok(LoadRow(x.text,
                 EnergyCells(root, h, LoadLabels[0])[0].text,
                 EnergyCells(root, h, LoadLabels[1])[0].text,
                 EnergyCells(root, h, LoadLabels[2])[0].text))
  }

  /** A DeliveryHour element's row: SyntaxError exactly when its text holds a double quote,
      AttributeError exactly when otherwise some quantity has no EnergyMW for it, and else
      the hour text and the first EnergyMW text of each quantity. */
  lemma LoadRowOfOutcome(root: Element, x: Element)
    ensures LoadRowOf(root, x) == Err(SyntaxError) <==> '"' in PathText(x.text)
    ensures LoadRowOf(root, x) == Err(AttributeError) <==>
              '"' !in PathText(x.text) && exists q :: q in LoadLabels && EnergyCells(root, PathText(x.text), q) == []
    ensures LoadRowOf(root, x).Err? ==> LoadRowOf(root, x).error in {SyntaxError, AttributeError}
    ensures LoadRowOf(root, x).Ok? ==>
              var h := PathText(x.text);
              |EnergyCells(root, h, "Total Energy")| > 0 && |EnergyCells(root, h, "Total Loss")| > 0 &&
              |EnergyCells(root, h, "Total Load")| > 0 &&
              LoadRowOf(root, x).value == LoadRow(x.text, EnergyCells(root, h, "Total Energy")[0].text,
                                                  EnergyCells(root, h, "Total Loss")[0].text, EnergyCells(root, h, "Total Load")[0].text)
  {
  }

  /** The rows for a list of DeliveryHour elements, stopping at the first that fails. */
  function LoadRows(root: Element, hours: seq<Element>): (r: Result<seq<LoadRow>>)
    ensures r.Ok? ==> |r.value| == |hours| && forall i :: 0 <= i < |hours| ==> LoadRowOf(root, hours[i]) == Ok(r.value[i])
    ensures r.Ok? <==> forall i :: 0 <= i < |hours| ==> LoadRowOf(root, hours[i]).Ok?
  {
    if hours == [] then Ok([])
    else
      var front := hours[..|hours| - 1];
      match LoadRows(root, front)
      case Err(e) => Err(e)
      case Ok(rows) =>
        match LoadRowOf(root, hours[|hours| - 1])
        case Err(e) => Err(e)
        case Ok(row) => Ok(rows + [row])
  }

  /** The table parse_load_xml returns for a parsed document. */
  function LoadTable(root: Element): Result<seq<LoadRow>>
  {
    LoadRows(root, DeliveryHours(root))
  }

  /** The load table succeeds exactly when no DeliveryHour text holds a double quote and
      every quantity has an EnergyMW element for every hour; its row i is then the text of
      the i-th DeliveryHour element and the text of the first EnergyMW element selected for
      each quantity and that hour. */
  lemma LoadTableRows(root: Element)
    ensures var hours := DeliveryHours(root);
      LoadTable(root).Ok? <==>
        forall i :: 0 <= i < |hours| ==>
          '"' !in PathText(hours[i].text) && forall q :: q in LoadLabels ==> EnergyCells(root, PathText(hours[i].text), q) != []
    ensures var hours := DeliveryHours(root);
      LoadTable(root).Ok? ==> (|LoadTable(root).value| == |hours| &&
        forall i :: 0 <= i < |hours| ==>
          var h := PathText(hours[i].text);
          LoadTable(root).value[i] == LoadRow(hours[i].text, EnergyCells(root, h, "Total Energy")[0].text,
                                              EnergyCells(root, h, "Total Loss")[0].text, EnergyCells(root, h, "Total Load")[0].text))
  {
  }

  /** parse_load_xml: for each DeliveryHour element, in order, the hour text followed by the
      EnergyMW text of each of Total Energy, Total Loss and Total Load. */
  method ParseLoadXml(root: Element) returns (r: Result<seq<LoadRow>>)
    ensures r == LoadTable(root)
  {
    var hours := DeliveryHours(root);
    var rows: seq<LoadRow> := [];
    var k := 0;
    while k < |hours|
      invariant 0 <= k <= |hours|
      invariant LoadRows(root, hours[..k]) == Ok(rows)
    {
      var row := LoadRowFor(root, hours[k]);
      if row.Err? {
        LoadRowsStopsAt(root, hours, k);
        return Err(row.error);
      }
      LoadRowsExtend(root, hours, k, rows, row.value);
      rows := rows + [row.value];
      k := k + 1;
    }
    assert hours[..k] == hours;
    r := Ok(rows);
  }

  /** The body of parse_load_xml's loop for one DeliveryHour element x: the hour text, then
      one find per market quantity. */
  method LoadRowFor(root: Element, x: Element) returns (r: Result<LoadRow>)
    ensures r == LoadRowOf(root, x)
  {
    var h := PathText(x.text);
    if '"' in h {
      return Err(SyntaxError);
    }
    var cells: seq<Option<string>> := [];
    var c := 0;
    while c < |LoadLabels|
      invariant 0 <= c <= |LoadLabels|
      invariant |cells| == c
      invariant forall d :: 0 <= d < c ==>
                  EnergyCells(root, h, LoadLabels[d]) != [] && cells[d] == EnergyCells(root, h, LoadLabels[d])[0].text
    {
      var found := EnergyCells(root, h, LoadLabels[c]);
      if found == [] {
        assert LoadLabels[c] in LoadLabels;
        return Err(AttributeError);
      }
      cells := cells + [found[0].text];
      c := c + 1;
    }
    assert forall q :: q in LoadLabels ==> EnergyCells(root, h, q) != [];
    r := Ok(LoadRow(x.text, cells[0], cells[1], cells[2]));
  }

  lemma LoadRowsExtend(root: Element, hours: seq<Element>, k: nat, rows: seq<LoadRow>, row: LoadRow)
    requires k < |hours| && LoadRows(root, hours[..k]) == Ok(rows) && LoadRowOf(root, hours[k]) == Ok(row)
    ensures LoadRows(root, hours[..k + 1]) == Ok(rows + [row])
  {
    assert hours[..k + 1][..k] == hours[..k];
  }

  /** When the row for hours[k] fails and every row before it succeeds, the table fails
      with that row's error. */
  lemma {:induction false} LoadRowsStopsAt(root: Element, hours: seq<Element>, k: nat)
    requires k < |hours| && LoadRows(root, hours[..k]).Ok? && LoadRowOf(root, hours[k]).Err?
    ensures LoadRows(root, hours) == Err(LoadRowOf(root, hours[k]).error)
    decreases |hours|
  {
    assert hours[..k + 1][..k] == hours[..k];
    if k + 1 < |hours| {
      var front := hours[..|hours| - 1];
      assert front[..k] == hours[..k];
      LoadRowsStopsAt(root, front, k);
    }
  }

  /** A document the load extractor reads without error, with at least one delivery hour,
      passes the load check: every EnergyMW element it reads sits in an MQ element below the
      root whose MarketQuantity child names the quantity. */
  lemma LoadExtractionImpliesCheck(root: Element)
    requires LoadTable(root).Ok? && DeliveryHours(root) != []
    ensures forall q :: q in LoadLabels ==> HasLoadLabel(root, q)
  {
    var x := DeliveryHours(root)[0];
    assert LoadRowOf(root, x).Ok?;
    var h := PathText(x.text);
    forall q | q in LoadLabels
      ensures HasLoadLabel(root, q)
    {
      assert EnergyCells(root, h, q) != [];
      var mq := QuantityBelowRoot(root, h, q);
      var candidates := Named(Descendants(root), IesoNamespace, "MQ");
      NamedMembers(Descendants(root), IesoNamespace, "MQ", mq);
      WithChildTextMembers(candidates, IesoNamespace, "MarketQuantity", q, mq);
    }
  }

  /** The MQ element an EnergyMW match hangs from lies below the root. */
  lemma QuantityBelowRoot(root: Element, h: string, q: string) returns (mq: Element)
    requires EnergyCells(root, h, q) != []
    ensures mq in Descendants(root) && HasTag(mq, IesoNamespace, "MQ")
    ensures HasChildText(mq, IesoNamespace, "MarketQuantity", q)
  {
    var energies := Named(Descendants(root), IesoNamespace, "Energies");
    var hourly := HourlyBlocks(root);
    var blocks := WithChildText(hourly, IesoNamespace, "DeliveryHour", h);
    var mqs := ChildrenNamed(blocks, IesoNamespace, "MQ");
    var quantities := WithChildText(mqs, IesoNamespace, "MarketQuantity", q);
    var cell := EnergyCells(root, h, q)[0];
    NamedMembers(Children(quantities), IesoNamespace, "EnergyMW", cell);
    ChildrenMembers(quantities, cell);
    mq :| mq in quantities && cell in mq.children;
    WithChildTextMembers(mqs, IesoNamespace, "MarketQuantity", q, mq);
    NamedMembers(Children(blocks), IesoNamespace, "MQ", mq);
    ChildrenMembers(blocks, mq);
    var b :| b in blocks && mq in b.children;
    WithChildTextMembers(hourly, IesoNamespace, "DeliveryHour", h, b);
    NamedMembers(Children(energies), IesoNamespace, "HourlyConstrainedEnergy", b);
    ChildrenMembers(energies, b);
    var e :| e in energies && b in e.children;
    NamedMembers(Descendants(root), IesoNamespace, "Energies", e);
    ChildOfDescendant(root, e, b);
    ChildOfDescendant(root, b, mq);
  }
}
