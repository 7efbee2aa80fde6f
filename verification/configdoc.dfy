/** The agent's configuration file as a document, written and read back (cmd/gwatch-agent/configfile.go). */
module ConfigDocs {
  import opened Wrappers
  import opened Ordering
  import opened Text

  datatype Name = Name(text: string)

  /** A value as JSON text: kept as it is found, never looked into. */
  datatype Raw = Raw(json: string)

  type Doc = map<Name, Raw>

  /** The lines of a written document, one key and its value each. */
  type Lines = seq<(Name, Raw)>

  /* ---------- Alphabetical order ---------- */

  function Alphabetical(): Comparator<Name> { (a: Name, b: Name) => CompareText(a.text, b.text) }

  lemma AlphabeticalOrders()
    ensures TotalPreorder(Alphabetical())
  {
    forall x: Name, y: Name ensures Alphabetical()(x, y) <= 0 || Alphabetical()(y, x) <= 0 {
      CompareSame(x.text, y.text);
    }
    forall x: Name, y: Name, z: Name | Alphabetical()(x, y) <= 0 && Alphabetical()(y, z) <= 0
      ensures Alphabetical()(x, z) <= 0 {
      CompareTransitive(x.text, y.text, z.text);
    }
  }

  lemma AlphabeticalHead(s: seq<Name>, t: seq<Name>)
    requires s != [] && t != [] && Sorted(s, Alphabetical()) && Sorted(t, Alphabetical())
    requires forall x :: x in s <==> x in t
    ensures s[0] == t[0]
  {
    var x, y := s[0], t[0];
    assert x in s && y in t;
    assert y == x || y in s[1..];
    assert x == y || x in t[1..];
    CompareSame(x.text, y.text);
    CompareSame(y.text, x.text);
    assert x == y || (Alphabetical()(x, y) <= 0 && Alphabetical()(y, x) <= 0);
  }

  /** Two alphabetical lists of the same different names are the same list. */
  lemma {:induction false} SortedUnique(s: seq<Name>, t: seq<Name>)
    requires Sorted(s, Alphabetical()) && Sorted(t, Alphabetical()) && NoDup(s) && NoDup(t)
    requires forall x :: x in s <==> x in t
    ensures s == t
  {
    if s == [] {
      EmptyOrNot(t);
    } else {
      assert s[0] in s && t != [];
      NoDupCons(s);
      NoDupCons(t);
      assert s[0] == t[0] by { AlphabeticalHead(s, t); }
      forall x ensures x in s[1..] <==> x in t[1..] {
        assert x in s <==> x == s[0] || x in s[1..];
        assert x in t <==> x == t[0] || x in t[1..];
      }
      SortedUnique(s[1..], t[1..]);
    }
  }

  /* ---------- Writing ---------- */

  function Linesof(keys: seq<Name>, raw: Doc): (ls: Lines)
    requires forall k :: k in keys ==> k in raw
    ensures |ls| == |keys| && forall i :: 0 <= i < |keys| ==> ls[i] == (keys[i], raw[keys[i]])
  {
    if keys == [] then [] else [(keys[0], raw[keys[0]])] + Linesof(keys[1..], raw)
  }

  function InDoc(raw: Doc): Name -> bool { k => k in raw }

  /** The keys of a document as they are written: the known ones in their order, then the others alphabetically. */
  ghost predicate WrittenOrder(known: seq<Name>, raw: Doc, keys: seq<Name>) {
    exists others :: keys == Filter(known, InDoc(raw)) + others && IsUnknown(known, raw, others)
  }

  ghost predicate IsUnknown(known: seq<Name>, raw: Doc, others: seq<Name>) {
    NoDup(others) && Sorted(others, Alphabetical()) && forall k :: k in others <==> k in raw && k !in known
  }

  lemma KeysOnce(known: seq<Name>, raw: Doc, keys: seq<Name>)
    requires NoDup(known) && WrittenOrder(known, raw, keys)
    ensures NoDup(keys) && forall k :: k in keys <==> k in raw
  {
    var others :| keys == Filter(known, InDoc(raw)) + others && IsUnknown(known, raw, others);
    var listed := Filter(known, InDoc(raw));
    FilterNoDup(known, InDoc(raw));
    forall i, j | 0 <= i < j < |keys| ensures keys[i] != keys[j] {
      assert i < |listed| ==> keys[i] in listed;
      assert j >= |listed| ==> keys[j] in others;
    }
  }

  lemma WrittenOrderUnique(known: seq<Name>, raw: Doc, a: seq<Name>, b: seq<Name>)
    requires WrittenOrder(known, raw, a) && WrittenOrder(known, raw, b)
    ensures a == b
  {
    var x :| a == Filter(known, InDoc(raw)) + x && IsUnknown(known, raw, x);
    var y :| b == Filter(known, InDoc(raw)) + y && IsUnknown(known, raw, y);
    SortedUnique(x, y);
  }

  /** The keys nothing reads, in alphabetical order. */
  method UnknownKeys(known: seq<Name>, raw: Doc) returns (others: seq<Name>)
    ensures IsUnknown(known, raw, others)
  {
    var found: seq<Name> := [];
    var todo := raw.Keys;
    while todo != {}
      invariant todo <= raw.Keys && NoDup(found)
      invariant forall k :: k in found <==> k in raw && k !in todo && k !in known
      decreases todo
    {
      var k :| k in todo;
      if k !in known { found := found + [k]; }
      todo := todo - {k};
    }
    others := SortBy(found, Alphabetical());
    SortKeeps(found, Alphabetical());
    AlphabeticalOrders();
    SortSorts(found, Alphabetical());
  }

  /** The known keys the document has, in their own order. */
  method KnownKeys(known: seq<Name>, raw: Doc) returns (listed: seq<Name>)
    ensures listed == Filter(known, InDoc(raw))
  {
    listed := [];
    for i := 0 to |known|
      invariant listed == Filter(known[..i], InDoc(raw))
    {
      TakeMore(known, i);
      FilterSnoc(known[..i], known[i], InDoc(raw));
      if known[i] in raw { listed := listed + [known[i]]; }
    }
    TakeAll(known);
  }

  method Bytes(known: seq<Name>, raw: Doc) returns (ls: Lines)
    requires NoDup(known)
    ensures IsWritten(known, raw, ls)
  {
    var listed := KnownKeys(known, raw);
    var others := UnknownKeys(known, raw);
    var keys := listed + others;
    assert WrittenOrder(known, raw, keys);
    KeysOnce(known, raw, keys);
    ls := WriteLines(keys, raw);
  }

  method WriteLines(keys: seq<Name>, raw: Doc) returns (ls: Lines)
    requires forall k :: k in keys ==> k in raw
    ensures ls == Linesof(keys, raw)
  {
    ls := [];
    for i := 0 to |keys|
      invariant |ls| == i && forall j :: 0 <= j < i ==> ls[j] == (keys[j], raw[keys[j]])
    {
      assert keys[i] in keys;
      ls := ls + [(keys[i], raw[keys[i]])];
    }
  }

  ghost predicate IsWritten(known: seq<Name>, raw: Doc, ls: Lines) {
    exists keys :: WrittenOrder(known, raw, keys) && (forall k :: k in keys ==> k in raw) && ls == Linesof(keys, raw)
  }

  /* ---------- Reading ---------- */

  /** What a list of lines says; of two lines for a key, the later counts. */
  function Parse(ls: Lines): Doc {
    if ls == [] then map[] else Parse(ls[..|ls| - 1])[ls[|ls| - 1].0 := ls[|ls| - 1].1]
  }

  lemma {:induction false} ParseDistinct(keys: seq<Name>, raw: Doc, n: nat)
    requires NoDup(keys) && n <= |keys| && forall k :: k in keys ==> k in raw
    ensures Parse(Linesof(keys, raw)[..n]) == map k | k in keys[..n] :: raw[k]
  {
    var ls := Linesof(keys, raw);
    if n > 0 {
      ParseDistinct(keys, raw, n - 1);
      assert ls[..n][..n - 1] == ls[..n - 1];
      assert keys[..n] == keys[..n - 1] + [keys[n - 1]];
      assert keys[n - 1] in keys;
    }
  }

  /** What is written is read back, key for key, and each key is written once. */
  lemma ReadsBack(known: seq<Name>, raw: Doc, ls: Lines)
    requires NoDup(known) && IsWritten(known, raw, ls)
    ensures Parse(ls) == raw
    ensures forall i, j :: 0 <= i < j < |ls| ==> ls[i].0 != ls[j].0
  {
    var keys :| WrittenOrder(known, raw, keys) && (forall k :: k in keys ==> k in raw) && ls == Linesof(keys, raw);
    KeysOnce(known, raw, keys);
    ParseAll(keys, raw);
  }

  lemma ParseAll(keys: seq<Name>, raw: Doc)
    requires NoDup(keys) && forall k :: k in keys <==> k in raw
    ensures Parse(Linesof(keys, raw)) == raw
    ensures forall i, j :: 0 <= i < j < |keys| ==> Linesof(keys, raw)[i].0 != Linesof(keys, raw)[j].0
  {
    ParseDistinct(keys, raw, |keys|);
    TakeAll(keys);
    TakeAll(Linesof(keys, raw));
  }

  /** A document is written one way only. */
  lemma WrittenOneWay(known: seq<Name>, raw: Doc, a: Lines, b: Lines)
    requires IsWritten(known, raw, a) && IsWritten(known, raw, b)
    ensures a == b
  {
    var x :| WrittenOrder(known, raw, x) && (forall k :: k in x ==> k in raw) && a == Linesof(x, raw);
    var y :| WrittenOrder(known, raw, y) && (forall k :: k in y ==> k in raw) && b == Linesof(y, raw);
    WrittenOrderUnique(known, raw, x, y);
  }

  /* ---------- The file and its copy ---------- */

  /** What a file can hold. */
  datatype Content =
    | Absent
    | Blank                    // nothing but white space
    | Zeros                    // zeros where text should be
    | CutShort                 // the beginning of a document
    | Malformed                // some other text, no document
    | Whole(lines: Lines)

  /** What an interrupted write leaves. */
  predicate Damaged(c: Content) { c in {Blank, Zeros, CutShort} }

  predicate LooksDamaged(c: Content) { c in {Blank, Zeros} }

  datatype Loaded = Loaded(raw: Doc, exists_: bool, recovered: bool)

  datatype LoadError = NotJson

  function ReadBackup(bak: Content): Option<Doc> {
    if bak.Whole? && Parse(bak.lines) != map[] then Some(Parse(bak.lines)) else None
  }

  function LoadDoc(file: Content, bak: Content): Result<Loaded, LoadError> {
    if file.Absent? then Ok(Loaded(map[], false, false))
    else if LooksDamaged(file) && ReadBackup(bak).Some? then Ok(Loaded(ReadBackup(bak).value, true, true))
    else if file.Blank? then Ok(Loaded(map[], true, false))
    else if file.Whole? then Ok(Loaded(Parse(file.lines), true, false))
    else if file.CutShort? && ReadBackup(bak).Some? then Ok(Loaded(ReadBackup(bak).value, true, true))
    else Err(NotJson)
  }

  /** Whether the copy is to be written again: the file is whole, holds something, and the copy differs. */
  predicate WantsBackup(file: Content, bak: Content) {
    file.Whole? && Parse(file.lines) != map[] && bak != file
  }

  /** A copy that can stand in: whole, with something in it. */
  ghost predicate Usable(bak: Content, raw: Doc) { bak.Whole? && Parse(bak.lines) == raw && raw != map[] }

  /**
   * A whole file is read whatever the copy holds, and other text never; one that was damaged is read from the
   * copy if that can stand in. Without one an absent or blank file is an empty document, and zeros or the
   * beginning of a document are not read.
   */
  lemma WhatIsLoaded(file: Content, bak: Content, raw: Doc)
    ensures file.Absent? ==> LoadDoc(file, bak) == Ok(Loaded(map[], false, false))
    ensures file.Whole? ==> LoadDoc(file, bak) == Ok(Loaded(Parse(file.lines), true, false))
    ensures file.Malformed? ==> LoadDoc(file, bak) == Err(NotJson)
    ensures (file.Blank? || file.Zeros? || file.CutShort?) && Usable(bak, raw) ==>
      LoadDoc(file, bak) == Ok(Loaded(raw, true, true))
    ensures (forall r :: !Usable(bak, r)) ==>
      (file.Blank? ==> LoadDoc(file, bak) == Ok(Loaded(map[], true, false))) &&
      (file.Zeros? || file.CutShort? ==> LoadDoc(file, bak) == Err(NotJson))
  {
    if ReadBackup(bak).Some? { assert Usable(bak, ReadBackup(bak).value); }
  }

  /** Of the lines for a key the last counts, and a key without one is not in the document. */
  lemma {:induction false} LastLineCounts(ls: Lines, i: nat)
    requires i < |ls| && forall j :: i < j < |ls| ==> ls[j].0 != ls[i].0
    ensures ls[i].0 in Parse(ls) && Parse(ls)[ls[i].0] == ls[i].1
    ensures forall k :: k in Parse(ls) ==> exists j :: 0 <= j < |ls| && ls[j].0 == k
    decreases |ls|
  {
    var before := ls[..|ls| - 1];
    ParsedKeys(ls);
    if i < |before| { LastLineCounts(before, i); }
  }

  lemma {:induction false} ParsedKeys(ls: Lines)
    ensures forall k :: k in Parse(ls) ==> exists j :: 0 <= j < |ls| && ls[j].0 == k
  {
    if ls != [] {
      var before := ls[..|ls| - 1];
      ParsedKeys(before);
      forall k | k in Parse(ls) ensures exists j :: 0 <= j < |ls| && ls[j].0 == k {
        if k in Parse(before) {
          var j :| 0 <= j < |before| && before[j].0 == k;
          assert ls[j].0 == k;
        }
      }
    }
  }

  lemma KnownByPlace(known: seq<Name>, raw: Doc, listed: seq<Name>, i: nat, j: nat)
    requires NoDup(known) && listed == Filter(known, InDoc(raw)) && i < j < |listed|
    ensures Precedes(known, listed[i], listed[j])
  {
    assert listed[i] in listed && listed[j] in listed;
    assert Precedes(listed, listed[i], listed[j]);
    FilterPrecedes(known, InDoc(raw), listed[i], listed[j]);
  }

  lemma TextInOrder(others: seq<Name>, i: nat, j: nat)
    requires NoDup(others) && Sorted(others, Alphabetical()) && i < j < |others|
    ensures ComesBefore(others[i].text, others[j].text)
  {
    SortedAt(others, Alphabetical(), i, j);
    CompareSame(others[i].text, others[j].text);
    ComparesAsText(others[i].text, others[j].text);
  }

  lemma PlaceOf(known: seq<Name>, raw: Doc, listed: seq<Name>, others: seq<Name>, i: nat)
    requires listed == Filter(known, InDoc(raw)) && i < |listed + others|
    requires forall k :: k in others ==> k !in known
    ensures (listed + others)[i] == if i < |listed| then listed[i] else others[i - |listed|]
    ensures (listed + others)[i] in known <==> i < |listed|
  {
    if i < |listed| { assert listed[i] in listed; } else { assert others[i - |listed|] in others; }
  }

  lemma KeysByText(known: seq<Name>, raw: Doc, listed: seq<Name>, others: seq<Name>, i: nat, j: nat)
    requires listed == Filter(known, InDoc(raw)) && (forall k :: k in others ==> k !in known)
    requires i < j < |listed| + |others|
    requires j < |listed| ==> Precedes(known, listed[i], listed[j])
    requires i >= |listed| ==> ComesBefore(others[i - |listed|].text, others[j - |listed|].text)
    ensures var a, b := (listed + others)[i], (listed + others)[j];
      && (b in known ==> a in known && Precedes(known, a, b))
      && (a !in known ==> b !in known && ComesBefore(a.text, b.text))
  {
    PlaceOf(known, raw, listed, others, i);
    PlaceOf(known, raw, listed, others, j);
  }

  ghost predicate InTextOrder(others: seq<Name>) {
    forall p, q {:trigger others[p], others[q]} :: 0 <= p < q < |others| ==> ComesBefore(others[p].text, others[q].text)
  }

  lemma AllInTextOrder(known: seq<Name>, raw: Doc, others: seq<Name>)
    requires IsUnknown(known, raw, others)
    ensures InTextOrder(others)
  {
    forall p, q | 0 <= p < q < |others| ensures ComesBefore(others[p].text, others[q].text) {
      TextInOrder(others, p, q);
    }
  }

  lemma WrittenByText(known: seq<Name>, raw: Doc, others: seq<Name>, i: nat, j: nat)
    requires NoDup(known) && InTextOrder(others) && (forall k :: k in others ==> k !in known)
    requires i < j < |Filter(known, InDoc(raw)) + others|
    ensures var keys := Filter(known, InDoc(raw)) + others;
      && (keys[j] in known ==> keys[i] in known && Precedes(known, keys[i], keys[j]))
      && (keys[i] !in known ==> keys[j] !in known && ComesBefore(keys[i].text, keys[j].text))
  {
    var listed := Filter(known, InDoc(raw));
    if j < |listed| { KnownByPlace(known, raw, listed, i, j); }
    KeysByText(known, raw, listed, others, i, j);
  }

  /** Two of the keys nothing reads are written in the order of their text, and after every known one. */
  lemma OthersByText(known: seq<Name>, raw: Doc, ls: Lines, i: nat, j: nat)
    requires NoDup(known) && IsWritten(known, raw, ls) && i < j < |ls|
    ensures ls[j].0 in known ==> ls[i].0 in known && Precedes(known, ls[i].0, ls[j].0)
    ensures ls[i].0 !in known ==> ls[j].0 !in known && ComesBefore(ls[i].0.text, ls[j].0.text)
  {
    var keys :| WrittenOrder(known, raw, keys) && (forall k :: k in keys ==> k in raw) && ls == Linesof(keys, raw);
    var others :| keys == Filter(known, InDoc(raw)) + others && IsUnknown(known, raw, others);
    AllInTextOrder(known, raw, others);
    WrittenByText(known, raw, others, i, j);
    assert ls[i].0 == keys[i] && ls[j].0 == keys[j];
  }

  /** The settings with a place of their own, first to last. */
  const CONFIG_KEYS := [
    Name("server"), Name("token"), Name("name"), Name("interval"), Name("checkIn"), Name("buffer"), Name("autoUpdate"),
    Name("insecure"), Name("certPin"), Name("listen"), Name("repo"), Name("hostRoot"), Name("collect"),
    Name("collector")]

  lemma KnownKeysDiffer()
    ensures NoDup(CONFIG_KEYS)
  {
  }

  /** The file and its copy, as this process finds and leaves them. A write that fails changes nothing. */
  class Disk {
    var file: Content
    var bak: Content

    constructor (file: Content, bak: Content)
      ensures this.file == file && this.bak == bak
    {
      this.file, this.bak := file, bak;
    }

    method WriteFile(ls: Lines, works: bool) returns (ok: bool)
      modifies this`file
      ensures ok == works && file == if works then Whole(ls) else old(file)
    {
      if works { file := Whole(ls); }
      ok := works;
    }

    method WriteBackup(c: Content, works: bool) returns (ok: bool)
      modifies this`bak
      ensures ok == works && bak == if works then c else old(bak)
    {
      if works { bak := c; }
      ok := works;
    }

    method KeepConfigBackup(works: bool)
      modifies this`bak
      ensures bak == if WantsBackup(file, old(bak)) && works then file else old(bak)
      ensures file.Whole? && Parse(file.lines) != map[] && works ==> bak == file
      ensures !file.Whole? || Parse(file.lines) == map[] || !works ==> bak == old(bak)
    {
      if WantsBackup(file, bak) { var _ := WriteBackup(file, works); }
    }
  }

  class ConfigDoc {
    // The settings with a place of their own in the file.
    const known: seq<Name>
    var exists_: bool
    var recovered: bool
    var raw: Doc

    constructor (l: Loaded)
      ensures known == CONFIG_KEYS && NoDup(known)
      ensures exists_ == l.exists_ && recovered == l.recovered && raw == l.raw
    {
      known, exists_, recovered, raw := CONFIG_KEYS, l.exists_, l.recovered, l.raw;
      new;
      KnownKeysDiffer();
    }

    method Set(key: Name, value: Raw)
      modifies this`raw
      ensures raw == old(raw)[key := value]
    {
      raw := raw[key := value];
    }

    /** Writes the document, then the copy beside it; only the first has to work. */
    method Save(disk: Disk, fileWorks: bool, copyWorks: bool) returns (ok: bool)
      requires NoDup(known)
      modifies this`exists_, this`recovered, disk
      ensures ok == fileWorks
      ensures !ok ==> disk.file == old(disk.file) && disk.bak == old(disk.bak)
      ensures !ok ==> exists_ == old(exists_) && recovered == old(recovered)
      ensures ok ==> disk.file.Whole? && IsWritten(known, raw, disk.file.lines) && exists_ && !recovered
      ensures ok ==> disk.bak == if copyWorks then disk.file else old(disk.bak)
    {
      var body := Bytes(known, raw);
      ok := disk.WriteFile(body, fileWorks);
      if !ok { return; }
      exists_, recovered := true, false;
      var _ := disk.WriteBackup(Whole(body), copyWorks);
    }
  }

  const TOKEN := Name("token")

  method LoadConfigDoc(disk: Disk) returns (r: Result<ConfigDoc, LoadError>)
    ensures r.Err? <==> LoadDoc(disk.file, disk.bak).Err?
    ensures r.Ok? ==> fresh(r.value) && NoDup(r.value.known) && var l := LoadDoc(disk.file, disk.bak).value;
      r.value.raw == l.raw && r.value.exists_ == l.exists_ && r.value.recovered == l.recovered
  {
    var l := LoadDoc(disk.file, disk.bak);
    if l.Err? { return Err(l.error); }
    var d := new ConfigDoc(l.value);
    r := Ok(d);
  }

  /** Loads the document, sets its token and saves it: no other setting is touched. */
  method StoreToken(disk: Disk, token: Raw, fileWorks: bool, copyWorks: bool) returns (ok: bool)
    modifies disk
    ensures ok == (LoadDoc(old(disk.file), old(disk.bak)).Ok? && fileWorks)
    ensures !ok ==> disk.file == old(disk.file) && disk.bak == old(disk.bak)
    ensures ok ==> var was := LoadDoc(old(disk.file), old(disk.bak)).value.raw;
      LoadDoc(disk.file, disk.bak) == Ok(Loaded(was[TOKEN := token], true, false))
    ensures ok && copyWorks ==> disk.bak == disk.file
  {
    var r := LoadConfigDoc(disk);
    if r.Err? { return false; }
    var doc := r.value;
    doc.Set(TOKEN, token);
    ok := doc.Save(disk, fileWorks, copyWorks);
    if ok { ReadsBack(doc.known, doc.raw, disk.file.lines); }
  }
}
