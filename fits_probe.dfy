/** The per-file loop of `fitsprobe.py`: each header is cut down to the
    requested columns and put after the file name, and the value of the
    averaged column is collected. */
module FitsProbe {
  import opened Outcome
  import opened PyDict
  import opened HeaderValues

  /** The columns `--summary` selects. */
  const SummaryColumns: seq<string> := ["EXPTIME", "CCD-TEMP", "OFFSET", "GAIN", "INSTRUME", "NAXIS", "NAXIS1", "NAXIS2"]

  type Record = Dict<HeaderValue>

  /** The entries of `d` whose key is one of `columns`, in order. */
  function Kept(d: Record, columns: seq<string>): (r: Record)
    ensures |r| <= |d|
    ensures forall i :: 0 <= i < |r| ==> r[i].0 in columns
    decreases |d|
  {
    if d == [] then []
    else Kept(d[..|d| - 1], columns) + if d[|d| - 1].0 in columns then [d[|d| - 1]] else []
  }

  /** `fileheader` after the deletion loop: untouched for an empty column list. */
  function Projected(d: Record, columns: seq<string>): (r: Record)
    ensures |r| <= |d|
    ensures columns == [] ==> r == d
    ensures columns != [] ==> forall i :: 0 <= i < |r| ==> r[i].0 in columns
  {
    if columns == [] then d else Kept(d, columns)
  }

  lemma {:induction false} KeptKeys(d: Record, columns: seq<string>, k: string)
    ensures k in Keys(Kept(d, columns)) <==> k in Keys(d) && k in columns
    decreases |d|
  {
    if d != [] {
      var n := |d| - 1;
      KeptKeys(d[..n], columns, k);
      assert Keys(d) == Keys(d[..n]) + [d[n].0];
      var front := Kept(d[..n], columns);
      if d[n].0 in columns {
        assert Keys(Kept(d, columns)) == Keys(front) + [d[n].0];
      } else {
        assert Kept(d, columns) == front;
      }
    }
  }

  /** The deletion loop keeps exactly the listed keys, with their values and
      in their order, and never repeats a key. */
  lemma {:induction false} KeptGet(d: Record, columns: seq<string>, k: string)
    requires Distinct(d)
    ensures Distinct(Kept(d, columns))
    ensures Get(Kept(d, columns), k) == if k in columns then Get(d, k) else None
    decreases |d|
  {
    if d != [] {
      var n := |d| - 1;
      var init := d[..n];
      LastIsNew(d);
      KeptGet(init, columns, k);
      KeptKeys(init, columns, d[n].0);
      HasIffInKeys(init, d[n].0);
      HasIffInKeys(Kept(init, columns), d[n].0);
      assert d == init + [d[n]];
      SnocGet(init, d[n], k);
      if d[n].0 in columns {
        SnocGet(Kept(init, columns), d[n], k);
      } else {
        assert Kept(d, columns) == Kept(init, columns);
      }
    }
  }

  /** The last key of a dict does not occur before it. */
  lemma LastIsNew(d: Record)
    requires Distinct(d) && d != []
    ensures Distinct(d[..|d| - 1]) && !Has(d[..|d| - 1], d[|d| - 1].0)
  {
    var n := |d| - 1;
    FindUnique(d[..n], d[n].0, n);
  }

  /** Appending an entry whose key is new. */
  lemma SnocGet(d: Record, e: (string, HeaderValue), k: string)
    requires Distinct(d) && !Has(d, e.0)
    ensures Distinct(d + [e])
    ensures Get(d + [e], k) == if k == e.0 then Some(e.1) else Get(d, k)
  {
    var r := d + [e];
    if Has(d, k) {
      FindUnique(r, k, Find(d, k));
    } else if k == e.0 {
      FindUnique(r, k, |d|);
    } else {
      FindUnique(r, k, |r|);
    }
  }

  /** `for k in list(fileheader.keys()): if k not in columns: del fileheader[k]` */
  method DeleteOtherColumns(header: Record, columns: seq<string>) returns (fileheader: Record)
    requires Distinct(header)
    ensures fileheader == Kept(header, columns)
  {
    fileheader := header;
    var keys := Keys(header);
    var i := 0;
    while i < |keys|
      invariant 0 <= i <= |keys|
      invariant fileheader == Kept(header[..i], columns) + header[i..]
    {
      var k := keys[i];
      if k !in columns {
        DeleteStep(header, columns, i);
        fileheader := Del(fileheader, k);
      } else {
        KeepStep(header, columns, i);
      }
      i := i + 1;
    }
    assert header[..i] == header;
  }

  /** Deleting a key that is not listed moves the loop's invariant on. */
  lemma DeleteStep(header: Record, columns: seq<string>, i: nat)
    requires Distinct(header) && i < |header| && header[i].0 !in columns
    ensures Distinct(Kept(header[..i], columns) + header[i..])
    ensures Del(Kept(header[..i], columns) + header[i..], header[i].0)
            == Kept(header[..i + 1], columns) + header[i + 1..]
  {
    var front := Kept(header[..i], columns);
    var d := front + header[i..];
    var j := |front|;
    assert header[..i + 1][..i] == header[..i];
    assert Kept(header[..i + 1], columns) == front;
    DistinctParts(header, columns, i);
    NotInFront(header, columns, i);
    assert d[j] == header[i];
    FindUnique(d, header[i].0, j);
    assert d[..j] + d[j + 1..] == front + header[i + 1..];
  }

  /** A listed key stays where it is. */
  lemma KeepStep(header: Record, columns: seq<string>, i: nat)
    requires i < |header| && header[i].0 in columns
    ensures Kept(header[..i], columns) + header[i..] == Kept(header[..i + 1], columns) + header[i + 1..]
  {
    assert header[..i + 1][..i] == header[..i];
    assert header[i..] == [header[i]] + header[i + 1..];
  }

  /** A key of the header appears at most once, so it is not among the
      entries kept from before it. */
  lemma NotInFront(header: Record, columns: seq<string>, i: nat)
    requires Distinct(header) && i < |header|
    ensures forall m :: 0 <= m < |Kept(header[..i], columns)| ==> Kept(header[..i], columns)[m].0 != header[i].0
  {
    var front := header[..i];
    KeptKeys(front, columns, header[i].0);
    HasIffInKeys(front, header[i].0);
    assert !Has(front, header[i].0) by {
      FindUnique(front, header[i].0, |front|);
    }
    forall m | 0 <= m < |Kept(front, columns)|
      ensures Kept(front, columns)[m].0 != header[i].0
    {
      assert Keys(Kept(front, columns))[m] == Kept(front, columns)[m].0;
    }
  }

  /** The kept entries followed by the unvisited ones repeat no key. */
  lemma DistinctParts(header: Record, columns: seq<string>, i: nat)
    requires Distinct(header) && i <= |header|
    ensures Distinct(Kept(header[..i], columns) + header[i..])
  {
    var front := Kept(header[..i], columns);
    var d := front + header[i..];
    forall a, b | 0 <= a < b < |d| ensures d[a].0 != d[b].0 {
      if b >= |front| {
        if a >= |front| {
          assert d[a] == header[i + a - |front|] && d[b] == header[i + b - |front|];
        } else {
          KeptKeys(header[..i], columns, d[a].0);
          assert Keys(front)[a] == d[a].0;
          var m :| 0 <= m < |header[..i]| && Keys(header[..i])[m] == d[a].0;
          assert d[a].0 == header[m].0 && d[b] == header[i + b - |front|];
        }
      } else {
        KeptGet(header[..i], columns, "");
        assert d[a] == front[a] && d[b] == front[b];
      }
    }
  }

  /** The first key of `r` is `FILENAME`. */
  predicate FilenameFirst(r: Record)
  {
    |r| > 0 && r[0].0 == "FILENAME"
  }

  /** The record of one file: `FILENAME` first, then the projected header. */
  function ProbeRecord(filename: string, header: Header, columns: seq<string>): (r: Record)
    ensures FilenameFirst(r)
  {
    var h := Update([], header);
    UpdateKeys([], header);
    ProjectedGet(h, columns, "");
    ProbeRecordShape(filename, Projected(h, columns));
    Update([("FILENAME", Str(filename))], Projected(h, columns))
  }

  /** The body of the loop for one file: the header as a dict, its other
      columns deleted when columns are listed, and the result merged into a
      dict that holds the file name. */
  method ProbeFile(filename: string, header: Header, columns: seq<string>) returns (rdict: Record)
    ensures rdict == ProbeRecord(filename, header, columns)
  {
    var fileheader := Update([], header);
    UpdateKeys([], header);
    if columns != [] {
      fileheader := DeleteOtherColumns(fileheader, columns);
    }
    rdict := Update([("FILENAME", Str(filename))], fileheader);
  }

  /** `rdict.get(args.average, nan)`, with `None` for NaN and for no column. */
  function Accumulated(record: Record, average: Option<string>): Option<HeaderValue>
  {
    match average
    case Some(a) => Get(record, a)
    case None => None
  }

  /** The accumulated value of a column is the header's own value, and NaN
      (`None`) for a column the header lacks or the column list leaves out. */
  lemma AccumulatedValue(filename: string, header: Header, columns: seq<string>, a: string)
    requires a != "FILENAME"
    ensures Accumulated(ProbeRecord(filename, header, columns), Some(a))
            == if columns == [] || a in columns then Get(Update([], header), a) else None
  {
    ProbeRecordGet(filename, header, columns, a);
  }

  /** The loop of `main` over the files: one record and one accumulator
      entry per file, in order. */
  method ProbeFiles(files: seq<string>, headers: seq<Header>, column: seq<string>, summary: bool, average: Option<string>)
    returns (records: seq<Record>, accumulator: seq<Option<HeaderValue>>)
    requires |headers| == |files|
    ensures var columns := if summary then SummaryColumns else column;
            && |records| == |files| && |accumulator| == |files|
            && (forall i :: 0 <= i < |files| ==> records[i] == ProbeRecord(files[i], headers[i], columns))
            && (forall i :: 0 <= i < |files| ==> accumulator[i] == Accumulated(records[i], average))
  {
    var columns := column;
    if summary {
      columns := SummaryColumns;
    }
    records := [];
    accumulator := [];
    var i := 0;
    while i < |files|
      invariant 0 <= i <= |files|
      invariant |records| == i && |accumulator| == i
      invariant forall m :: 0 <= m < i ==> records[m] == ProbeRecord(files[m], headers[m], columns)
      invariant forall m :: 0 <= m < i ==> accumulator[m] == Accumulated(records[m], average)
    {
      var rdict := ProbeFile(files[i], headers[i], columns);
      records := records + [rdict];
      accumulator := accumulator + [Accumulated(rdict, average)];
      i := i + 1;
    }
  }

  /** A record starts with `FILENAME`; it holds the file name unless the
      projected header has a `FILENAME` of its own, and otherwise exactly the
      header's values for the listed columns (all of them for no list). */
  lemma ProbeRecordGet(filename: string, header: Header, columns: seq<string>, k: string)
    ensures var r := ProbeRecord(filename, header, columns);
      && |r| > 0 && r[0].0 == "FILENAME"
      && Distinct(r)
    ensures var r, h := ProbeRecord(filename, header, columns), Update([], header);
      Get(r, k) == if k != "FILENAME" || Has(Projected(h, columns), k) then
                     (if columns == [] || k in columns then Get(h, k) else None)
                   else Some(Str(filename))
  {
    var h := Update([], header);
    UpdateKeys([], header);
    ProjectedGet(h, columns, k);
    ProbeRecordShape(filename, Projected(h, columns));
    GetUpdate([("FILENAME", Str(filename))], Projected(h, columns), k);
  }

  /** What the deletion loop leaves of a dict without repeated keys. */
  lemma ProjectedGet(h: Record, columns: seq<string>, k: string)
    requires Distinct(h)
    ensures Distinct(Projected(h, columns))
    ensures Get(Projected(h, columns), k) == if columns == [] || k in columns then Get(h, k) else None
  {
    if columns != [] {
      KeptGet(h, columns, k);
    }
  }

  /** Merging into the dict holding the file name keeps `FILENAME` first. */
  lemma ProbeRecordShape(filename: string, p: Record)
    requires Distinct(p)
    ensures var r := Update([("FILENAME", Str(filename))], p);
      |r| > 0 && r[0].0 == "FILENAME" && Distinct(r)
  {
    var seed: Record := [("FILENAME", Str(filename))];
    UpdateKeys(seed, p);
    assert Keys(Update(seed, p))[..1] == Keys(seed);
  }
}
