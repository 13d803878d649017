/** The three fail-closed checks that gate the transforms: the header of the monthly
    capability file, and the elements every daily intertie and load document must contain.
    A check that fails returns false; it raises only when a file to inspect is missing. */
module SchemaValidator {
  import opened Wrappers
  import opened Decimal
  import opened Xml

  function HourLabel(n: nat): string
  {
    "Hour " + DecimalString(n)
  }

  /** 'Hour 1' to 'Hour 24', the hourly value columns of the monthly file. */
  function HourColumns(): (labels: seq<string>)
    ensures |labels| == 24 && forall i :: 0 <= i < 24 ==> labels[i] == HourLabel(i + 1)
  {
    seq(24, i requires 0 <= i < 24 => HourLabel(i + 1))
  }

  const IdColumns: seq<string> := ["Delivery Date", "Generator", "Fuel Type", "Measurement"]

  /** The 28 column names the monthly file must have. */
  const OutputColumns: seq<string> := IdColumns + HourColumns()

  predicate Distinct<T(==)>(s: seq<T>)
  {
    forall i, j :: 0 <= i < j < |s| ==> s[i] != s[j]
  }

  /** check_output_columns, on the column names the CSV reader produced: exactly 28 names,
      each one of the expected names. */
  function CheckOutputColumns(columns: seq<string>): bool
  {
    |columns| == 28 && forall c :: c in columns ==> c in OutputColumns
  }

  lemma HourLabelsDiffer(m: nat, n: nat)
    requires m != n
    ensures HourLabel(m) != HourLabel(n)
  {
    assert HourLabel(m)[5..] == DecimalString(m);
    assert HourLabel(n)[5..] == DecimalString(n);
  }

  lemma HourColumnsDistinct()
    ensures Distinct(HourColumns())
  {
    forall i, j | 0 <= i < j < 24
      ensures HourColumns()[i] != HourColumns()[j]
    {
      HourLabelsDiffer(i + 1, j + 1);
    }
  }

  /** The 28 expected names are pairwise different. */
  lemma OutputColumnsDistinct()
    ensures |OutputColumns| == 28 && Distinct(OutputColumns)
  {
    var hours := HourColumns();
    HourColumnsDistinct();
    assert Distinct(IdColumns);
    assert forall i :: 0 <= i < 4 ==> IdColumns[i][0] != 'H';
    assert forall j :: 0 <= j < 24 ==> hours[j][0] == 'H';
    forall i, j | 0 <= i < j < 28
      ensures OutputColumns[i] != OutputColumns[j]
    {
      if 4 <= i {
        assert OutputColumns[i] == hours[i - 4] && OutputColumns[j] == hours[j - 4];
      } else if 4 <= j {
        assert OutputColumns[i] == IdColumns[i] && OutputColumns[j] == hours[j - 4];
      } else {
        assert OutputColumns[i] == IdColumns[i] && OutputColumns[j] == IdColumns[j];
      }
    }
  }

  lemma {:induction false} DistinctCardinality<T>(s: seq<T>)
    requires Distinct(s)
    ensures |set x | x in s| == |s|
  {
    if s != [] {
      var rest := s[1..];
      DistinctCardinality(rest);
      assert (set x | x in s) == (set x | x in rest) + {s[0]};
      assert s[0] !in (set x | x in rest);
    }
  }

  lemma {:induction false} SubsetOfSameSize<T>(a: set<T>, b: set<T>)
    requires a <= b && |a| == |b|
    ensures a == b
  {
    if a != b {
      assert exists y :: y in b && y !in a;
      var x :| x in b && x !in a;
      assert a <= b - {x};
      SubsetCardinality(a, b - {x});
    }
  }

  lemma {:induction false} SubsetCardinality<T>(a: set<T>, b: set<T>)
    requires a <= b
    ensures |a| <= |b|
  {
    if a != {} {
      var x :| x in a;
      SubsetCardinality(a - {x}, b - {x});
    }
  }

  /** Reader column names never repeat, so a header that passes the check holds exactly
      the 28 expected names, in some order. */
  lemma OutputColumnsExact(columns: seq<string>)
    requires Distinct(columns) && CheckOutputColumns(columns)
    ensures forall c :: c in columns <==> c in OutputColumns
  {
    OutputColumnsDistinct();
    DistinctCardinality(columns);
    DistinctCardinality(OutputColumns);
    var have, want := set c | c in columns, set c | c in OutputColumns;
    SubsetOfSameSize(have, want);
    forall c | c in OutputColumns
      ensures c in columns
    {
      assert c in want;
    }
  }

  /** A header that lacks one of the expected names (say 'Hour 12') fails the check. */
  lemma MissingColumnFails(columns: seq<string>, name: string)
    requires Distinct(columns) && name in OutputColumns && name !in columns
    ensures !CheckOutputColumns(columns)
  {
    if CheckOutputColumns(columns) {
      OutputColumnsExact(columns);
      assert false;
    }
  }

  const ImoNamespace: string := "http://www.theIMO.com/schema"
  const IesoNamespace: string := "http://www.ieso.ca/schema"

  const IntertieLeaves: seq<string> := ["Hour", "Import", "Export"]
  const LoadLabels: seq<string> := ["Total Energy", "Total Loss", "Total Load"]

  /** root.find('.//{IMO}leaf') is not None. */
  predicate HasIntertieLeaf(root: Element, leaf: string)
  {
    Named(Descendants(root), ImoNamespace, leaf) != []
  }

  /** The intertie file exists and has an element for each of Hour, Import and Export. */
  predicate IntertieFileOk(files: map<string, Element>, name: string)
  {
    name in files && forall leaf :: leaf in IntertieLeaves ==> HasIntertieLeaf(files[name], leaf)
  }

  /** check_intertie_nodes: the files are parsed in list order; a missing file raises, and the
      first parsed file that lacks a leaf makes the check false without looking further. */
  method CheckIntertieNodes(names: seq<string>, files: map<string, Element>) returns (r: Result<bool>)
    ensures r == Ok(true) <==> forall i :: 0 <= i < |names| ==> IntertieFileOk(files, names[i])
    ensures r == Ok(false) <==>
              (exists i :: 0 <= i < |names| && names[i] in files && !IntertieFileOk(files, names[i]) &&
                           forall j :: 0 <= j < i ==> IntertieFileOk(files, names[j]))
    ensures r.Err? <==>
              (exists i :: 0 <= i < |names| && names[i] !in files &&
                           forall j :: 0 <= j < i ==> IntertieFileOk(files, names[j]))
    ensures r.Err? ==> r.error.FileNotFound? && r.error.name in names
  {
    var k := 0;
    while k < |names|
      invariant 0 <= k <= |names|
      invariant forall j :: 0 <= j < k ==> IntertieFileOk(files, names[j])
    {
      if names[k] !in files {
        return Err(FileNotFound(names[k]));
      }
      var root := files[names[k]];
      var c := 0;
      while c < |IntertieLeaves|
        invariant 0 <= c <= |IntertieLeaves|
        invariant forall d :: 0 <= d < c ==> HasIntertieLeaf(root, IntertieLeaves[d])
      {
        if Named(Descendants(root), ImoNamespace, IntertieLeaves[c]) == [] {
          assert IntertieLeaves[c] in IntertieLeaves;
          assert !IntertieFileOk(files, names[k]);
          return Ok(false);
        }
        c := c + 1;
      }
      k := k + 1;
    }
    return Ok(true);
  }

  /** root.find('.//{IESO}MQ[{IESO}MarketQuantity="label"]') is not None. */
  predicate HasLoadLabel(root: Element, quantity: string)
  {
    WithChildText(Named(Descendants(root), IesoNamespace, "MQ"), IesoNamespace, "MarketQuantity", quantity) != []
  }

  /** The load file exists and has an MQ element for each of Total Energy, Total Loss and Total Load. */
  predicate LoadFileOk(files: map<string, Element>, name: string)
  {
    name in files && forall quantity :: quantity in LoadLabels ==> HasLoadLabel(files[name], quantity)
  }

  /** check_load_nodes, with the same early exit as the intertie check. */
  method CheckLoadNodes(names: seq<string>, files: map<string, Element>) returns (r: Result<bool>)
    ensures r == Ok(true) <==> forall i :: 0 <= i < |names| ==> LoadFileOk(files, names[i])
    ensures r == Ok(false) <==>
              (exists i :: 0 <= i < |names| && names[i] in files && !LoadFileOk(files, names[i]) &&
                           forall j :: 0 <= j < i ==> LoadFileOk(files, names[j]))
    ensures r.Err? <==>
              (exists i :: 0 <= i < |names| && names[i] !in files &&
                           forall j :: 0 <= j < i ==> LoadFileOk(files, names[j]))
    ensures r.Err? ==> r.error.FileNotFound? && r.error.name in names
  {
    var k := 0;
    while k < |names|
      invariant 0 <= k <= |names|
      invariant forall j :: 0 <= j < k ==> LoadFileOk(files, names[j])
    {
      if names[k] !in files {
        return Err(FileNotFound(names[k]));
      }
      var root := files[names[k]];
      var c := 0;
      while c < |LoadLabels|
        invariant 0 <= c <= |LoadLabels|
        invariant forall d :: 0 <= d < c ==> HasLoadLabel(root, LoadLabels[d])
      {
        var mq := Named(Descendants(root), IesoNamespace, "MQ");
        if WithChildText(mq, IesoNamespace, "MarketQuantity", LoadLabels[c]) == [] {
          assert LoadLabels[c] in LoadLabels;
          assert !LoadFileOk(files, names[k]);
          return Ok(false);
        }
        c := c + 1;
      }
      k := k + 1;
    }
    return Ok(true);
  }
}
