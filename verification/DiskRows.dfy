/** The rows of a disk listing: directories, then files, each by decreasing size. */
module DiskRows {
  import opened Outcomes
  import opened Disk

  datatype Kind = Directory | RegularFile | Other

  /** An entry of the scanned directory; `readable` tells whether its metadata could be read. */
  datatype Item = Item(name: string, kind: Kind, readable: bool, size: nat)

  datatype Row = Row(name: string, display: string, size: nat, kind: Kind)

  // ---------- Sorting ----------

  ghost predicate IsDescending(items: seq<Item>) {
    forall i, j | 0 <= i < j < |items| :: items[i].size >= items[j].size
  }

  function OfSize(items: seq<Item>, size: nat): seq<Item> {
    if items == [] then [] else (if items[0].size == size then [items[0]] else []) + OfSize(items[1..], size)
  }

  /** Ordered by decreasing size, entries of equal size in their old order. */
  ghost predicate IsStableSort(sorted: seq<Item>, items: seq<Item>) {
    IsDescending(sorted) && forall size :: OfSize(sorted, size) == OfSize(items, size)
  }

  function Place(x: Item, items: seq<Item>): seq<Item> {
    if items == [] || x.size >= items[0].size then [x] + items else [items[0]] + Place(x, items[1..])
  }

  function Sorted(items: seq<Item>): seq<Item> {
    if items == [] then [] else Place(items[0], Sorted(items[1..]))
  }

  lemma OfSizeCons(x: Item, items: seq<Item>, size: nat)
    ensures OfSize([x] + items, size) == (if x.size == size then [x] else []) + OfSize(items, size)
  {
    assert ([x] + items)[1..] == items;
  }

  lemma DescendingTail(items: seq<Item>)
    requires IsDescending(items) && items != []
    ensures IsDescending(items[1..])
    ensures forall x | x in items :: items[0].size >= x.size
  {
  }

  /** Placing an entry in front of its equals and behind the larger ones. */
  lemma {:induction false} PlaceOfSize(x: Item, items: seq<Item>, size: nat)
    requires IsDescending(items)
    ensures OfSize(Place(x, items), size) == (if x.size == size then [x] else []) + OfSize(items, size)
  {
    hide OfSize, IsDescending;
    if items == [] || x.size >= items[0].size {
      OfSizeCons(x, items, size);
    } else {
      var rest := items[1..];
      DescendingTail(items);
      PlaceOfSize(x, rest, size);
      OfSizeCons(items[0], Place(x, rest), size);
      OfSizeCons(items[0], rest, size);
      assert items == [items[0]] + rest;
      if x.size != size {
        assert OfSize(Place(x, rest), size) == OfSize(rest, size);
      }
    }
  }

  lemma {:induction false} PlaceDescends(x: Item, items: seq<Item>)
    requires IsDescending(items)
    ensures IsDescending(Place(x, items))
    ensures forall y | y in Place(x, items) :: y == x || y in items
  {
    if items != [] && x.size < items[0].size {
      PlaceDescends(x, items[1..]);
      var rest := Place(x, items[1..]);
      forall y | y in rest
        ensures items[0].size >= y.size
      {
        if y != x {
          var k :| 0 <= k < |items[1..]| && items[1..][k] == y;
          assert items[k + 1] == y;
        }
      }
    }
  }

  lemma {:induction false} SortedIsStableSort(items: seq<Item>)
    ensures IsStableSort(Sorted(items), items)
  {
    if items != [] {
      SortedIsStableSort(items[1..]);
      PlaceDescends(items[0], Sorted(items[1..]));
      forall size
        ensures OfSize(Sorted(items), size) == OfSize(items, size)
      {
        PlaceOfSize(items[0], Sorted(items[1..]), size);
      }
    }
  }

  lemma {:induction false} OfSizeMembers(items: seq<Item>, size: nat)
    ensures forall x :: x in OfSize(items, size) <==> x in items && x.size == size
    ensures forall x :: multiset(OfSize(items, size))[x] == if x.size == size then multiset(items)[x] else 0
  {
    if items != [] {
      assert items == [items[0]] + items[1..];
      OfSizeMembers(items[1..], size);
    }
  }

  /** A stable sort is a permutation. */
  lemma StableSortIsPermutation(sorted: seq<Item>, items: seq<Item>)
    requires IsStableSort(sorted, items)
    ensures multiset(sorted) == multiset(items)
  {
    forall x: Item
      ensures multiset(sorted)[x] == multiset(items)[x]
    {
      OfSizeMembers(sorted, x.size);
      OfSizeMembers(items, x.size);
      assert OfSize(sorted, x.size) == OfSize(items, x.size);
    }
  }

  lemma FirstOfItsSize(items: seq<Item>)
    requires items != []
    ensures OfSize(items, items[0].size) != [] && OfSize(items, items[0].size)[0] == items[0]
  {
  }

  lemma SameSizeMembers(a: seq<Item>, b: seq<Item>, x: Item)
    requires OfSize(a, x.size) == OfSize(b, x.size) && x in a
    ensures x in b
  {
    OfSizeMembers(a, x.size);
    OfSizeMembers(b, x.size);
  }

  lemma HeadIsLargest(a: seq<Item>, b: seq<Item>)
    requires IsStableSort(a, b) && IsDescending(b) && a != []
    ensures b != [] && a[0] == b[0]
  {
    hide OfSize, IsDescending;
    assert OfSize(a, a[0].size) == OfSize(b, a[0].size);
    SameSizeMembers(a, b, a[0]);
    assert OfSize(a, b[0].size) == OfSize(b, b[0].size);
    SameSizeMembers(b, a, b[0]);
    DescendingTail(a);
    DescendingTail(b);
    FirstOfItsSize(a);
    FirstOfItsSize(b);
  }

  /** There is only one stable order by decreasing size. */
  lemma {:induction false} StableSortIsUnique(a: seq<Item>, b: seq<Item>)
    requires IsStableSort(a, b) && IsDescending(b)
    ensures a == b
  {
    if a == [] {
      StableSortIsPermutation(a, b);
      assert |multiset(b)| == 0;
    } else {
      HeadIsLargest(a, b);
      forall size
        ensures OfSize(a[1..], size) == OfSize(b[1..], size)
      {
        assert OfSize(a, size) == OfSize(b, size);
        var head := if a[0].size == size then [a[0]] else [];
        assert OfSize(a[1..], size) == OfSize(a, size)[|head|..];
        assert OfSize(b[1..], size) == OfSize(b, size)[|head|..];
      }
      StableSortIsUnique(a[1..], b[1..]);
    }
  }

  // ---------- The listing ----------

  predicate IsListed(x: Item, kind: Kind) {
    x.kind == kind && (kind == Directory || x.readable)
  }

  function Listed(items: seq<Item>, kind: Kind): seq<Item> {
    if items == [] then []
    else Listed(items[..|items| - 1], kind) + if IsListed(items[|items| - 1], kind) then [items[|items| - 1]] else []
  }

  ghost predicate IsRowOf(row: Row, x: Item) {
    row.name == x.name && row.size == x.size && row.kind == x.kind && IsTruncation(row.display, x.name, 48)
  }

  ghost predicate AreRowsOf(rows: seq<Row>, items: seq<Item>) {
    |rows| == |items| && forall i | 0 <= i < |rows| :: IsRowOf(rows[i], items[i])
  }

  lemma RowsAreCut(rows: seq<Row>, items: seq<Item>)
    requires AreRowsOf(rows, items)
    ensures forall i | 0 <= i < |rows| :: IsTruncation(rows[i].display, rows[i].name, 48)
  {
  }

  method AppendRows(rows: seq<Row>, ghost done: seq<Item>, items: seq<Item>) returns (rows': seq<Row>)
    requires AreRowsOf(rows, done)
    ensures AreRowsOf(rows', done + items)
  {
    rows' := rows;
    for i := 0 to |items|
      invariant AreRowsOf(rows', done + items[..i])
    {
      var x := items[i];
      var display := TruncateForDisplay(x.name, 48);
      rows' := rows' + [Row(x.name, display, x.size, x.kind)];
      assert done + items[..i + 1] == done + items[..i] + [x];
    }
    assert items[..|items|] == items;
  }

  /** A path is one file, whose metadata may be unreadable, or a directory with its entries. */
  datatype Scan = OneFile(name: string, size: Option<nat>) | Folder(items: seq<Item>)

  datatype ScanError = NoMetadata

  /** The entries a listing shows, in order. */
  function Shown(scan: Scan): seq<Item> {
    match scan
    case OneFile(name, Some(size)) => [Item(name, RegularFile, true, size)]
    case OneFile(_, None) => []
    case Folder(items) => Sorted(Listed(items, Directory)) + Sorted(Listed(items, RegularFile))
  }

  // The rows, without reference to how they are produced.

  /** The names of the rows of one kind and size, in order. */
  function RowNames(rows: seq<Row>, kind: Kind, size: nat): seq<string> {
    if rows == [] then []
    else
      (if rows[0].kind == kind && rows[0].size == size then [rows[0].name] else []) + RowNames(rows[1..], kind, size)
  }

  /** The names of the entries of one kind and size that a listing has to show, in scanning order. */
  function ScannedNames(items: seq<Item>, kind: Kind, size: nat): seq<string> {
    if items == [] then []
    else ScannedName(items[0], kind, size) + ScannedNames(items[1..], kind, size)
  }

  function ScannedName(x: Item, kind: Kind, size: nat): seq<string> {
    if x.kind == kind && x.size == size && (kind == Directory || x.readable) then [x.name] else []
  }

  /** Directories come before files. */
  ghost predicate DirectoriesFirst(rows: seq<Row>) {
    forall i, j | 0 <= i < j < |rows| :: !(rows[i].kind == RegularFile && rows[j].kind == Directory)
  }

  /** Rows of one kind do not grow. */
  ghost predicate LargestFirst(rows: seq<Row>) {
    forall i, j | 0 <= i < j < |rows| && rows[i].kind == rows[j].kind :: rows[i].size >= rows[j].size
  }

  lemma ScannedNamesCons(x: Item, items: seq<Item>, kind: Kind, size: nat)
    ensures ScannedNames([x] + items, kind, size) == ScannedName(x, kind, size) + ScannedNames(items, kind, size)
  {
    assert ([x] + items)[1..] == items;
  }

  lemma {:induction false} ScannedNamesConcat(a: seq<Item>, b: seq<Item>, kind: Kind, size: nat)
    ensures ScannedNames(a + b, kind, size) == ScannedNames(a, kind, size) + ScannedNames(b, kind, size)
  {
    if a == [] {
      assert a + b == b;
    } else {
      hide ScannedName, ScannedNames;
      var x, rest := a[0], a[1..];
      assert a == [x] + rest && a + b == [x] + (rest + b);
      ScannedNamesConcat(rest, b, kind, size);
      ScannedNamesCons(x, rest, kind, size);
      ScannedNamesCons(x, rest + b, kind, size);
    }
  }

  /** The names depend only on the entries of that size. */
  lemma {:induction false} NamesOfSize(items: seq<Item>, kind: Kind, size: nat)
    ensures ScannedNames(OfSize(items, size), kind, size) == ScannedNames(items, kind, size)
  {
    if items != [] {
      var head := if items[0].size == size then [items[0]] else [];
      NamesOfSize(items[1..], kind, size);
      ScannedNamesConcat(head, OfSize(items[1..], size), kind, size);
      ScannedNamesConcat([items[0]], items[1..], kind, size);
      assert items == [items[0]] + items[1..];
      assert [items[0]][1..] == [];
    }
  }

  lemma {:induction false} NamesOfListed(items: seq<Item>, kind: Kind, shown: Kind, size: nat)
    ensures ScannedNames(Listed(items, kind), shown, size) ==
            if kind == shown then ScannedNames(items, shown, size) else []
  {
    if items != [] {
      var n := |items| - 1;
      var x := items[n];
      NamesOfListed(items[..n], kind, shown, size);
      ScannedNamesConcat(Listed(items[..n], kind), if IsListed(x, kind) then [x] else [], shown, size);
      assert items == items[..n] + [x];
      ScannedNamesConcat(items[..n], [x], shown, size);
      assert [x][1..] == [];
    }
  }

  lemma NamesOfSorted(items: seq<Item>, kind: Kind, shown: Kind, size: nat)
    ensures ScannedNames(Sorted(Listed(items, kind)), shown, size) ==
            if kind == shown then ScannedNames(items, shown, size) else []
  {
    var listed := Listed(items, kind);
    SortedIsStableSort(listed);
    assert OfSize(Sorted(listed), size) == OfSize(listed, size);
    NamesOfSize(Sorted(listed), shown, size);
    NamesOfSize(listed, shown, size);
    NamesOfListed(items, kind, shown, size);
  }

  lemma {:induction false} NamesOfRows(rows: seq<Row>, items: seq<Item>, kind: Kind, size: nat)
    requires AreRowsOf(rows, items)
    requires forall i | 0 <= i < |items| :: IsListed(items[i], items[i].kind)
    ensures RowNames(rows, kind, size) == ScannedNames(items, kind, size)
  {
    if rows != [] {
      assert IsRowOf(rows[0], items[0]);
      forall i | 0 <= i < |rows[1..]|
        ensures IsRowOf(rows[1..][i], items[1..][i])
      {
        assert IsRowOf(rows[i + 1], items[i + 1]);
      }
      NamesOfRows(rows[1..], items[1..], kind, size);
    }
  }

  lemma SortedMembers(items: seq<Item>, kind: Kind)
    ensures forall x | x in Sorted(Listed(items, kind)) :: IsListed(x, kind)
    ensures IsDescending(Sorted(Listed(items, kind)))
  {
    SortedIsStableSort(Listed(items, kind));
    StableSortIsPermutation(Sorted(Listed(items, kind)), Listed(items, kind));
    ListedMembers(items, kind);
    forall x | x in Sorted(Listed(items, kind))
      ensures IsListed(x, kind)
    {
      assert x in multiset(Sorted(Listed(items, kind)));
    }
  }

  lemma FolderOrder(rows: seq<Row>, dirs: seq<Item>, files: seq<Item>)
    requires AreRowsOf(rows, dirs + files) && IsDescending(dirs) && IsDescending(files)
    requires forall x | x in dirs :: x.kind == Directory
    requires forall x | x in files :: x.kind == RegularFile
    ensures DirectoriesFirst(rows) && LargestFirst(rows)
    ensures forall i | 0 <= i < |rows| :: rows[i].kind == Directory || rows[i].kind == RegularFile
  {
    forall i | 0 <= i < |rows|
      ensures i < |dirs| ==> rows[i].kind == Directory && rows[i].size == dirs[i].size
      ensures i >= |dirs| ==> rows[i].kind == RegularFile && rows[i].size == files[i - |dirs|].size
    {
      assert IsRowOf(rows[i], (dirs + files)[i]);
      if i < |dirs| {
        assert dirs[i] in dirs;
      } else {
        assert files[i - |dirs|] in files;
      }
    }
  }

  lemma FolderRows(rows: seq<Row>, items: seq<Item>)
    requires AreRowsOf(rows, Shown(Folder(items)))
    ensures DirectoriesFirst(rows) && LargestFirst(rows)
    ensures forall i | 0 <= i < |rows| :: rows[i].kind == Directory || rows[i].kind == RegularFile
    ensures forall kind, size | kind == Directory || kind == RegularFile ::
              RowNames(rows, kind, size) == ScannedNames(items, kind, size)
  {
    hide Sorted, Listed, RowNames, ScannedNames, AreRowsOf;
    var dirs, files := Sorted(Listed(items, Directory)), Sorted(Listed(items, RegularFile));
    SortedMembers(items, Directory);
    SortedMembers(items, RegularFile);
    FolderOrder(rows, dirs, files);
    forall kind, size | kind == Directory || kind == RegularFile
      ensures RowNames(rows, kind, size) == ScannedNames(items, kind, size)
    {
      forall i | 0 <= i < |dirs + files|
        ensures IsListed((dirs + files)[i], (dirs + files)[i].kind)
      {
        assert (dirs + files)[i] in dirs || (dirs + files)[i] in files;
      }
      NamesOfRows(rows, dirs + files, kind, size);
      ScannedNamesConcat(dirs, files, kind, size);
      NamesOfSorted(items, Directory, kind, size);
      NamesOfSorted(items, RegularFile, kind, size);
    }
  }

  ghost predicate Shows(row: Row, x: Item) {
    x.name == row.name && x.size == row.size && x.kind == row.kind
  }

  lemma SortedIsListed(items: seq<Item>, kind: Kind, x: Item)
    ensures x in Sorted(Listed(items, kind)) <==> x in items && IsListed(x, kind)
  {
    SortedIsStableSort(Listed(items, kind));
    StableSortIsPermutation(Sorted(Listed(items, kind)), Listed(items, kind));
    ListedMembers(items, kind);
    assert x in Sorted(Listed(items, kind)) <==> x in multiset(Sorted(Listed(items, kind)));
    assert x in items <==> x in multiset(items);
  }

  /** Every listed entry has a row and every row a listed entry. */
  lemma FolderIsShown(rows: seq<Row>, items: seq<Item>)
    requires AreRowsOf(rows, Shown(Folder(items)))
    ensures forall row | row in rows :: exists x | x in items ::
              Shows(row, x) && (x.kind == Directory || (x.kind == RegularFile && x.readable))
    ensures forall x | x in items && (x.kind == Directory || (x.kind == RegularFile && x.readable)) ::
              exists row | row in rows :: Shows(row, x)
  {
    hide Sorted, Listed, IsRowOf;
    var shown := Shown(Folder(items));
    forall row | row in rows
      ensures exists x | x in items :: Shows(row, x) && (x.kind == Directory || (x.kind == RegularFile && x.readable))
    {
      var i :| 0 <= i < |rows| && rows[i] == row;
      RowAt(rows, shown, i);
      SortedIsListed(items, Directory, shown[i]);
      SortedIsListed(items, RegularFile, shown[i]);
      assert shown[i] in shown;
    }
    forall x | x in items && (x.kind == Directory || (x.kind == RegularFile && x.readable))
      ensures exists row | row in rows :: Shows(row, x)
    {
      SortedIsListed(items, Directory, x);
      SortedIsListed(items, RegularFile, x);
      assert x in shown;
      var i :| 0 <= i < |shown| && shown[i] == x;
      RowAt(rows, shown, i);
      assert rows[i] in rows;
    }
  }

  lemma RowAt(rows: seq<Row>, items: seq<Item>, i: nat)
    requires AreRowsOf(rows, items) && i < |items|
    ensures |rows| == |items| && Shows(rows[i], items[i])
  {
    assert IsRowOf(rows[i], items[i]);
  }

  method GetDiskUsage(scan: Scan) returns (r: Result<seq<Row>, ScanError>)
    ensures r.Err? <==> scan.OneFile? && scan.size.None?
    ensures r.Ok? ==> AreRowsOf(r.value, Shown(scan))
    ensures r.Ok? && scan.OneFile? ==>
              && |r.value| == 1 && r.value[0].name == scan.name
              && r.value[0].size == scan.size.value && r.value[0].kind == RegularFile
    ensures r.Ok? && scan.Folder? ==>
              && (forall i, j | 0 <= i < j < |r.value| ::
                    !(r.value[i].kind == RegularFile && r.value[j].kind == Directory))
              && (forall i, j | 0 <= i < j < |r.value| && r.value[i].kind == r.value[j].kind ::
                    r.value[i].size >= r.value[j].size)
              && (forall row | row in r.value :: exists x | x in scan.items ::
                    && x.name == row.name && x.size == row.size && x.kind == row.kind
                    && (x.kind == Directory || (x.kind == RegularFile && x.readable)))
              && (forall x | x in scan.items && (x.kind == Directory || (x.kind == RegularFile && x.readable)) ::
                    exists row | row in r.value :: x.name == row.name && x.size == row.size && x.kind == row.kind)
              && (forall kind, size | kind == Directory || kind == RegularFile ::
                    RowNames(r.value, kind, size) == ScannedNames(scan.items, kind, size))
    ensures r.Ok? ==> forall i | 0 <= i < |r.value| :: IsTruncation(r.value[i].display, r.value[i].name, 48)
  {
    if scan.OneFile? {
      if scan.size.None? {
        return Err(NoMetadata);
      }
      var display := TruncateForDisplay(scan.name, 48);
      return Ok([Row(scan.name, display, scan.size.value, RegularFile)]);
    }
    var items := scan.items;
    var dirs, files: seq<Item> := [], [];
    for i := 0 to |items|
      invariant dirs == Listed(items[..i], Directory) && files == Listed(items[..i], RegularFile)
    {
      var x := items[i];
      assert items[..i + 1][..i] == items[..i];
      if x.kind == Directory {
        dirs := dirs + [x];
      } else if x.kind == RegularFile && x.readable {
        files := files + [x];
      }
    }
    assert items[..|items|] == items;
    var dirSizes := Sorted(dirs);
    files := Sorted(files);
    var rows := AppendRows([], [], dirSizes);
    assert [] + dirSizes == dirSizes;
    rows := AppendRows(rows, dirSizes, files);
    FolderRows(rows, scan.items);
    FolderIsShown(rows, scan.items);
    RowsAreCut(rows, dirSizes + files);
    r := Ok(rows);
  }

  lemma {:induction false} ListedMembers(items: seq<Item>, kind: Kind)
    ensures forall x :: multiset(Listed(items, kind))[x] == if IsListed(x, kind) then multiset(items)[x] else 0
  {
    if items != [] {
      var n := |items| - 1;
      assert items == items[..n] + [items[n]];
      ListedMembers(items[..n], kind);
    }
  }

  /** The rows show exactly the listed entries, directories first, each group by decreasing size
      and stable. */
  lemma ListingOrder(items: seq<Item>)
    ensures var dirs, files := Sorted(Listed(items, Directory)), Sorted(Listed(items, RegularFile));
            && IsStableSort(dirs, Listed(items, Directory)) && IsStableSort(files, Listed(items, RegularFile))
            && (forall x :: multiset(dirs + files)[x] ==
                            if IsListed(x, Directory) || IsListed(x, RegularFile) then multiset(items)[x] else 0)
            && (forall i, j | 0 <= i < |dirs| && 0 <= j < |files| ::
                 dirs[i].kind == Directory && files[j].kind == RegularFile)
  {
    var dirs, files := Sorted(Listed(items, Directory)), Sorted(Listed(items, RegularFile));
    SortedIsStableSort(Listed(items, Directory));
    SortedIsStableSort(Listed(items, RegularFile));
    StableSortIsPermutation(dirs, Listed(items, Directory));
    StableSortIsPermutation(files, Listed(items, RegularFile));
    ListedMembers(items, Directory);
    ListedMembers(items, RegularFile);
    forall i | 0 <= i < |dirs|
      ensures dirs[i].kind == Directory
    {
      assert dirs[i] in multiset(dirs);
    }
    forall j | 0 <= j < |files|
      ensures files[j].kind == RegularFile
    {
      assert files[j] in multiset(files);
    }
  }

  /** Every listed name fits its column: 50 columns in all, at least two of them blank. */
  method NameCell(row: Row, ghost x: Item) returns (cell: string)
    requires IsRowOf(row, x)
    ensures Width(cell) == 50 && row.display <= cell && |cell| - |row.display| >= 2
    ensures forall i | |row.display| <= i < |cell| :: cell[i] == ' '
  {
    TruncationFits(row.display, x.name, 48);
    cell := PadName(row.display);
  }
}
