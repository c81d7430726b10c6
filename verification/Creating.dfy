/**
  Creating an entry: a short name is generated that no entry of the directory has, and the entry is
  stored under it. The short names of a directory therefore stay distinct.
  */
module Creating {

  import opened Options
  import opened Bytes
  import opened LongNames
  import opened DirEntries
  import opened Listings
  import opened DirSlots
  import opened Directories
  import S = ShortNames

  /** The short names of entries, as their records hold them. */
  function ShortNamesOf(items: seq<Item>): (names: seq<S.ShortName>)
    ensures |names| == |items|
            && forall i {:trigger names[i]} :: 0 <= i < |items| ==> names[i] == items[i].record[..SFN_SIZE]
  {
    seq(|items|, i requires 0 <= i < |items| => items[i].record[..SFN_SIZE])
  }

  /** No two entries have the same short name. */
  ghost predicate NamesDistinct(items: seq<Item>) {
    forall i, j :: 0 <= i < j < |items| ==> items[i].record[..SFN_SIZE] != items[j].record[..SFN_SIZE]
  }

  /** An entry with a new short name keeps them distinct. */
  lemma AddedDistinct(was: seq<Item>, now: seq<Item>, k: nat, item: Item)
    requires NamesDistinct(was) && Added(was, now, k, item) && item.record[..SFN_SIZE] !in ShortNamesOf(was)
    ensures NamesDistinct(now)
  {
    forall i, j | 0 <= i < j < |now| ensures now[i].record[..SFN_SIZE] != now[j].record[..SFN_SIZE] {
      var a, b := if i < k then i else i - 1, if j < k then j else j - 1;
      if i != k { assert now[i] == was[a] && ShortNamesOf(was)[a] == was[a].record[..SFN_SIZE]; }
      if j != k { assert now[j] == was[b] && ShortNamesOf(was)[b] == was[b].record[..SFN_SIZE]; }
    }
  }

  /** The record of a new file or directory. */
  function NewRecord(f: FileData, name: S.ShortName): (record: Slot)
    requires f.attrs < 64 && !IsLfnAttrs(f.attrs)
  {
    Encode(File(f.(name := name)))
  }

  /** It is read as that of an entry with this short name. */
  lemma NewRecordIsShort(f: FileData, name: S.ShortName)
    requires f.attrs < 64 && !IsLfnAttrs(f.attrs) && !IsVolumeAttrs(f.attrs) && S.Legal(name[0])
    ensures RecOf(NewRecord(f, name)) == Short(NewRecord(f, name)) && NewRecord(f, name)[..SFN_SIZE] == name
  {
    var d := f.(name := name);
    FileRoundTrip(d);
    Marks(NewRecord(f, name));
    assert EncodeFile(d)[..SFN_SIZE] == name;
  }

  /** The generator of short names cuts the first byte off a name, and stops if that is not a character of its own. */
  predicate Stops(name: seq<scalar>) {
    name == [] || name[0] >= 0x80
  }

  /**
    Creates an entry for a long name that the directory does not have yet. The record `f` is that of
    a file or a directory; its name is replaced by the generated one. Stops for an empty name before its
    length is looked at.
    */
  method CreateEntry(dir: Dir, name: seq<scalar>, f: FileData)
    returns (stops: bool, r: Result<nat, DirError>, record: Slot, ghost p: nat, ghost k: nat, ghost item: Item)
    requires dir.Valid() && f.attrs < 64 && !IsLfnAttrs(f.attrs) && !IsVolumeAttrs(f.attrs)
    requires !Stops(name) ==> S.Nameable(S.New(name), ShortNamesOf(Items(dir.View())), S.NameChecksum(name))
    requires dir.Far(DIR_ENTRY_SIZE * |dir.View()|, 21 * DIR_ENTRY_SIZE + 2 * dir.fs.g.data.size)
    modifies dir.Repr()
    ensures dir.Valid() && dir.Kept(old(dir.fs.disk[..]), old(dir.Chain()))
    ensures stops == Stops(name) && (stops || r.Err? ==> Items(dir.View()) == Items(old(dir.View())))
    ensures !stops ==> (r == Err(InvalidFileNameLength) <==> !LengthOk(name))
    ensures !stops ==> (r == Err(UnsupportedFileNameCharacter) <==> LengthOk(name) && !AllSupported(name))
    ensures !stops && LengthOk(name) && AllSupported(name) ==> var units := Utf16(name);
            && NameOk(units) && FirstFit(old(dir.View()), p, Parts(|units|) + 1) && (r.Ok? ==> r.value == p)
            && ListedAs(old(dir.View()), old(dir.AheadTo(p + Parts(|units|) + 1)), dir.View(), p, units, record, k,
                        item, r.Ok?)
    ensures !stops && r.Ok? ==> record[..SFN_SIZE] !in ShortNamesOf(Items(old(dir.View())))
    ensures !stops && r.Ok? && Clean(old(dir.View()), dir.View(), dir.Zeroed())
            ==> Added(Items(old(dir.View())), Items(dir.View()), k, item)
    ensures !stops && r.Ok? && Added(Items(old(dir.View())), Items(dir.View()), k, item)
            ==> (NamesDistinct(Items(old(dir.View()))) ==> NamesDistinct(Items(dir.View())))
  {
    hide Dir.Valid, Dir.View, Dir.Chain, Dir.Kept, Dir.Far, Dir.AheadTo, RecOf, Clean, Added, NamesDistinct, S.Nameable,
      S.ShortNameGenerator.Valid, S.New, S.NameChecksum, Harmless, Utf16, Utf8Length, AllSupported, Items, FirstFit,
      ShortNamesOf, Stripped, ListedAs;
    stops, r, p, k, item := Stops(name), Err(InvalidFileNameLength), 0, 0, Item(0, 0, Zeros(DIR_ENTRY_SIZE), []);
    record := Zeros(DIR_ENTRY_SIZE);
    dir.KeptNow();
    if stops { return; }
    ghost var v := dir.View();
    var short := FindName(dir, name);
    record := NewEntry(f, short);
    r, p, k, item := dir.WriteEntry(name, record);
    if r.Ok? { StaysDistinct(Items(v), Items(dir.View()), k, item); }
  }

  method NewEntry(f: FileData, name: S.ShortName) returns (record: Slot)
    requires f.attrs < 64 && !IsLfnAttrs(f.attrs) && !IsVolumeAttrs(f.attrs) && S.Legal(name[0])
    ensures RecOf(record) == Short(record) && record[..SFN_SIZE] == name
  {
    NewRecordIsShort(f, name);
    record := NewRecord(f, name);
  }

  lemma StaysDistinct(was: seq<Item>, now: seq<Item>, k: nat, item: Item)
    requires item.record[..SFN_SIZE] !in ShortNamesOf(was)
    ensures Added(was, now, k, item) && NamesDistinct(was) ==> NamesDistinct(now)
  {
    if Added(was, now, k, item) && NamesDistinct(was) { AddedDistinct(was, now, k, item); }
  }

  /** The short names of the directory. */
  method ListNames(dir: Dir) returns (names: seq<S.ShortName>)
    requires dir.Valid()
    modifies dir.Cursor()
    ensures dir.Valid() && dir.View() == old(dir.View()) && dir.Chain() == old(dir.Chain())
    ensures names == ShortNamesOf(Items(dir.View())) && forall q :: dir.AheadTo(q) == old(dir.AheadTo(q))
  {
    hide Dir.Valid, Dir.View, Dir.Chain, Dir.Ahead, Dir.AheadOf;
    forall m { dir.AheadIs(m); }
    var items := dir.List(true);
    forall m { dir.AheadIs(m); }
    names := ShortNamesOf(items);
  }

  /** A short name for `name` that is not in the directory. */
  method FindName(dir: Dir, name: seq<scalar>) returns (short: S.ShortName)
    requires dir.Valid() && !Stops(name)
    requires S.Nameable(S.New(name), ShortNamesOf(Items(dir.View())), S.NameChecksum(name))
    modifies dir.Cursor()
    ensures dir.Valid() && dir.View() == old(dir.View()) && dir.Chain() == old(dir.Chain())
    ensures forall q :: dir.AheadTo(q) == old(dir.AheadTo(q))
    ensures short !in ShortNamesOf(Items(dir.View())) && S.Legal(short[0])
  {
    hide Dir.Valid, Dir.View, Dir.Chain, Dir.AheadTo, S.Nameable, S.New, S.NameChecksum, ShortNamesOf, Items;
    var names := ListNames(dir);
    ghost var repr := dir.Repr();
    assert forall o :: o in repr ==> allocated(o);
    short := UnusedName(names, name);
  }

  /** A short name for `name` that is none of `names`. */
  method UnusedName(names: seq<S.ShortName>, name: seq<scalar>) returns (short: S.ShortName)
    requires !Stops(name) && S.Nameable(S.New(name), names, S.NameChecksum(name))
    ensures short !in names && S.Legal(short[0])
  {
    S.NewLegal(name);
    var gen := new S.ShortNameGenerator(S.New(name), S.NameChecksum(name));
    var passes;
    short, passes := gen.FindUnused(names);
  }
}
