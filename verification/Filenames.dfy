/** Migration file names: how a directory listing is read, and what a scaffolded name
    reads back as. Sources: internal/migrator/dir.go and, for the range of versions,
    internal/engine/postgresengine/ledger.go. */
module Filenames {
  import opened Wrappers
  import opened Ledger
  import opened Migrations
  import Protocol

  const MAX_UINT64: nat := 0xFFFF_FFFF_FFFF_FFFF

  const UP := ".up.sql"
  const DOWN := ".down.sql"

  predicate IsDigit(c: char) {
    '0' <= c <= '9'
  }

  predicate AllDigits(s: string) {
    forall i :: 0 <= i < |s| ==> IsDigit(s[i])
  }

  predicate EndsWith(s: string, suffix: string) {
    |s| >= |suffix| && s[|s| - |suffix|..] == suffix
  }

  /** How many digits a name starts with. */
  function LeadingDigits(s: string): (n: nat)
    ensures n <= |s| && AllDigits(s[..n]) && (n < |s| ==> !IsDigit(s[n]))
  {
    if s == [] || !IsDigit(s[0]) then 0
    else
      var n := LeadingDigits(s[1..]);
      assert s[..n + 1] == [s[0]] + s[1..][..n];
      n + 1
  }

  /** The number a string of digits stands for. */
  function Value(s: string): nat
    requires AllDigits(s)
  {
    if s == [] then 0 else 10 * Value(s[..|s| - 1]) + (s[|s| - 1] - '0') as nat
  }

  /** At least one character, none of them a line break, and then the suffix. */
  predicate MatchesTail(tail: string, suffix: string) {
    EndsWith(tail, suffix) && |tail| > |suffix| && '\n' !in tail[..|tail| - |suffix|]
  }

  /** The version of a name that is digits, an underscore and a matching tail. */
  function Match(name: string, suffix: string): Option<nat> {
    var n := LeadingDigits(name);
    if 0 < n < |name| && name[n] == '_' && MatchesTail(name[n + 1..], suffix) then Some(Value(name[..n])) else None
  }

  datatype Kind = Other | Up(version: nat) | Down(version: nat)

  /** What one name is read as: down files first, whatever the up suffix is. */
  function Classify(name: string, upSuffix: string): Kind {
    match Match(name, DOWN)
    case Some(v) => if v <= MAX_UINT64 then Down(v) else Other
    case None =>
      match Match(name, upSuffix)
      case None => Other
      case Some(v) =>
        if upSuffix != UP && EndsWith(name, UP) then Other
        else if v <= MAX_UINT64 then Up(v) else Other
  }

  // ----- Reading a directory -----

  datatype DirEntry = DirEntry(name: string, isDir: bool, sql: string)

  function UpsOf(entries: seq<DirEntry>, upSuffix: string): seq<File> {
    if entries == [] then []
    else
      var init, e := UpsOf(entries[..|entries| - 1], upSuffix), entries[|entries| - 1];
      match Classify(e.name, upSuffix)
      case Up(v) => if e.isDir then init else init + [File(v, e.name, e.sql)]
      case _ => init
  }

  function DownsOf(entries: seq<DirEntry>, upSuffix: string): seq<File> {
    if entries == [] then []
    else
      var init, e := DownsOf(entries[..|entries| - 1], upSuffix), entries[|entries| - 1];
      match Classify(e.name, upSuffix)
      case Down(v) => if e.isDir then init else init + [File(v, e.name, e.sql)]
      case _ => init
  }

  /** A later file of the same version replaces an earlier one. */
  function IndexOf(files: seq<File>): map<nat, File> {
    if files == [] then map[] else IndexOf(files[..|files| - 1])[files[|files| - 1].version := files[|files| - 1]]
  }

  function Insert(f: File, files: seq<File>): seq<File> {
    if files == [] || f.version <= files[0].version then [f] + files else [files[0]] + Insert(f, files[1..])
  }

  /** `sort.Slice` by version; it decides nothing when the versions are distinct. */
  function SortFiles(files: seq<File>): seq<File> {
    if files == [] then [] else Insert(files[|files| - 1], SortFiles(files[..|files| - 1]))
  }

  function DirOf(entries: seq<DirEntry>, upSuffix: string): Dir {
    var suffix := if upSuffix == "" then UP else upSuffix;
    var ups := UpsOf(entries, suffix);
    Dir(SortFiles(ups), IndexOf(ups), IndexOf(DownsOf(entries, suffix)))
  }

  method ReadDir(entries: seq<DirEntry>, upSuffix: string) returns (dir: Dir)
    ensures dir == DirOf(entries, upSuffix)
    ensures Reads(entries, if upSuffix == "" then UP else upSuffix, dir)
    ensures DistinctVersions(UpsOf(entries, if upSuffix == "" then UP else upSuffix)) ==> dir.Valid()
  {
    var suffix := if upSuffix == "" then UP else upSuffix;
    var ups, byVersion, byVersionDown := IndexEntries(entries, suffix);
    dir := Dir(SortFiles(ups), byVersion, byVersionDown);
    ListingMeans(entries, suffix);
    if DistinctVersions(ups) {
      ListingIsValid(ups, DownsOf(entries, suffix));
    }
  }

  /** The loop over the listing. */
  method IndexEntries(entries: seq<DirEntry>, suffix: string)
    returns (upFiles: seq<File>, byVersion: map<nat, File>, byVersionDown: map<nat, File>)
    ensures upFiles == UpsOf(entries, suffix) && byVersion == IndexOf(upFiles)
    ensures byVersionDown == IndexOf(DownsOf(entries, suffix))
  {
    upFiles, byVersion, byVersionDown := [], map[], map[];
    ghost var downs: seq<File> := [];
    for i := 0 to |entries|
      invariant upFiles == UpsOf(entries[..i], suffix) && byVersion == IndexOf(upFiles)
      invariant downs == DownsOf(entries[..i], suffix) && byVersionDown == IndexOf(downs)
    {
      var e := entries[i];
      FilesOfNext(entries, suffix, i);
      if e.isDir {
        continue;
      }
      match Classify(e.name, suffix)
      case Down(v) =>
        IndexOfNext(downs, File(v, e.name, e.sql));
        byVersionDown := byVersionDown[v := File(v, e.name, e.sql)];
        downs := downs + [File(v, e.name, e.sql)];
      case Up(v) =>
        IndexOfNext(upFiles, File(v, e.name, e.sql));
        upFiles := upFiles + [File(v, e.name, e.sql)];
        byVersion := byVersion[v := File(v, e.name, e.sql)];
      case Other =>
    }
    assert entries[..|entries|] == entries;
  }

  lemma IndexOfNext(files: seq<File>, f: File)
    ensures IndexOf(files + [f]) == IndexOf(files)[f.version := f]
  {
    assert (files + [f])[..|files|] == files;
  }

  lemma FilesOfNext(entries: seq<DirEntry>, suffix: string, i: nat)
    requires i < |entries|
    ensures var e, ups, downs := entries[i], UpsOf(entries[..i], suffix), DownsOf(entries[..i], suffix);
            && UpsOf(entries[..i + 1], suffix) ==
               (if Classify(e.name, suffix).Up? && !e.isDir
                then ups + [File(Classify(e.name, suffix).version, e.name, e.sql)] else ups)
            && DownsOf(entries[..i + 1], suffix) ==
               (if Classify(e.name, suffix).Down? && !e.isDir
                then downs + [File(Classify(e.name, suffix).version, e.name, e.sql)] else downs)
  {
    assert entries[..i + 1][..i] == entries[..i];
  }

  ghost predicate DistinctVersions(files: seq<File>) {
    forall i, j :: 0 <= i < j < |files| ==> files[i].version != files[j].version
  }

  lemma {:induction false} InsertMeans(f: File, files: seq<File>)
    requires AscendingFiles(files) && forall g :: g in files ==> g.version != f.version
    ensures AscendingFiles(Insert(f, files))
  {
    if !(files == [] || f.version <= files[0].version) {
      InsertMeans(f, files[1..]);
      InsertMembers(f, files[1..]);
      var rest := Insert(f, files[1..]);
      forall i | 0 <= i < |rest|
        ensures files[0].version < rest[i].version
      {
        assert rest[i] in rest;
      }
      assert forall g :: g in files <==> g == files[0] || g in files[1..];
    } else if files != [] {
      assert files[0] in files;
    }
  }

  lemma {:induction false} SortFilesMeans(files: seq<File>)
    requires DistinctVersions(files)
    ensures AscendingFiles(SortFiles(files))
    ensures forall g :: g in SortFiles(files) <==> g in files
  {
    SortFilesMembers(files);
    if files != [] {
      var init, last := files[..|files| - 1], files[|files| - 1];
      SortFilesMeans(init);
      assert forall g :: g in files <==> g in init || g == last;
      InsertMeans(last, SortFiles(init));
    }
  }

  lemma {:induction false} IndexOfMeans(files: seq<File>)
    ensures forall v :: v in IndexOf(files) ==> IndexOf(files)[v] in files && IndexOf(files)[v].version == v
    ensures forall f :: f in files ==> f.version in IndexOf(files)
  {
    if files != [] {
      IndexOfMeans(files[..|files| - 1]);
      assert forall f :: f in files <==> f in files[..|files| - 1] || f == files[|files| - 1];
    }
  }

  lemma SameVersionSameFile(files: seq<File>, f: File, g: File)
    requires DistinctVersions(files) && f in files && g in files && f.version == g.version
    ensures f == g
  {
  }

  lemma ListingIsValid(ups: seq<File>, downs: seq<File>)
    requires DistinctVersions(ups)
    ensures Dir(SortFiles(ups), IndexOf(ups), IndexOf(downs)).Valid()
  {
    SortFilesMeans(ups);
    IndexOfMeans(ups);
    IndexOfMeans(downs);
    forall f | f in ups
      ensures IndexOf(ups)[f.version] == f
    {
      SameVersionSameFile(ups, IndexOf(ups)[f.version], f);
    }
  }

  /** Some entry that is not a directory is read as `kind` and gives the file `f`. */
  ghost predicate Lists(entries: seq<DirEntry>, upSuffix: string, f: File, kind: Kind) {
    exists e :: e in entries && !e.isDir && Classify(e.name, upSuffix) == kind && f == File(f.version, e.name, e.sql)
  }

  lemma {:induction false} FilesOfMean(entries: seq<DirEntry>, upSuffix: string)
    ensures forall f :: f in UpsOf(entries, upSuffix) <==> Lists(entries, upSuffix, f, Up(f.version))
    ensures forall f :: f in DownsOf(entries, upSuffix) <==> Lists(entries, upSuffix, f, Down(f.version))
  {
    if entries != [] {
      FilesOfMean(entries[..|entries| - 1], upSuffix);
      assert forall e :: e in entries <==> e in entries[..|entries| - 1] || e == entries[|entries| - 1];
    }
  }

  lemma {:induction false} SortFilesMembers(files: seq<File>)
    ensures forall f :: f in SortFiles(files) <==> f in files
  {
    if files != [] {
      var init, last := files[..|files| - 1], files[|files| - 1];
      SortFilesMembers(init);
      InsertMembers(last, SortFiles(init));
      assert forall f :: f in files <==> f in init || f == last;
    }
  }

  lemma {:induction false} InsertMembers(f: File, files: seq<File>)
    ensures forall g :: g in Insert(f, files) <==> g == f || g in files
  {
    if !(files == [] || f.version <= files[0].version) {
      InsertMembers(f, files[1..]);
      assert forall g :: g in files <==> g == files[0] || g in files[1..];
    }
  }

  /** Exactly the up files of the listing, each version indexed. */
  ghost predicate ReadsUps(entries: seq<DirEntry>, suffix: string, dir: Dir) {
    && (forall f :: f in dir.upFiles <==> Lists(entries, suffix, f, Up(f.version)))
    && (forall v :: v in dir.byVersion ==> dir.byVersion[v] in dir.upFiles && dir.byVersion[v].version == v)
    && (forall f :: f in dir.upFiles ==> f.version in dir.byVersion)
  }

  /** Every down version of the listing under one of its files, and nothing else. */
  ghost predicate ReadsDowns(entries: seq<DirEntry>, suffix: string, dir: Dir) {
    && (forall v :: v in dir.byVersionDown ==>
          Lists(entries, suffix, dir.byVersionDown[v], Down(v)) && dir.byVersionDown[v].version == v)
    && (forall f: File :: Lists(entries, suffix, f, Down(f.version)) ==> f.version in dir.byVersionDown)
  }

  ghost predicate Reads(entries: seq<DirEntry>, suffix: string, dir: Dir) {
    ReadsUps(entries, suffix, dir) && ReadsDowns(entries, suffix, dir)
  }

  lemma ListsUps(entries: seq<DirEntry>, suffix: string, downs: map<nat, File>)
    ensures var ups := UpsOf(entries, suffix); ReadsUps(entries, suffix, Dir(SortFiles(ups), IndexOf(ups), downs))
  {
    FilesOfMean(entries, suffix);
    SortFilesMembers(UpsOf(entries, suffix));
    IndexOfMeans(UpsOf(entries, suffix));
  }

  lemma ListsDowns(entries: seq<DirEntry>, suffix: string, files: seq<File>, ups: map<nat, File>)
    ensures ReadsDowns(entries, suffix, Dir(files, ups, IndexOf(DownsOf(entries, suffix))))
  {
    FilesOfMean(entries, suffix);
    IndexOfMeans(DownsOf(entries, suffix));
  }

  lemma ListingMeans(entries: seq<DirEntry>, suffix: string)
    ensures var ups := UpsOf(entries, suffix);
            Reads(entries, suffix, Dir(SortFiles(ups), IndexOf(ups), IndexOf(DownsOf(entries, suffix))))
  {
    ListsUps(entries, suffix, IndexOf(DownsOf(entries, suffix)));
    ListsDowns(entries, suffix, SortFiles(UpsOf(entries, suffix)), IndexOf(UpsOf(entries, suffix)));
  }

  // ----- Scaffolding -----

  /** The clock as fourteen digits, or one above the highest version, in 64 bits. */
  function Next(clock: nat, highest: nat): nat {
    if highest >= clock then (highest + 1) % (MAX_UINT64 + 1) else clock
  }

  /** The highest up version, 0 when there is none. */
  function Highest(files: seq<File>): nat {
    if files == [] then 0
    else
      var h, v := Highest(files[..|files| - 1]), files[|files| - 1].version;
      if v > h then v else h
  }

  lemma {:induction false} HighestMeans(files: seq<File>)
    ensures forall f :: f in files ==> f.version <= Highest(files)
    ensures files != [] ==> exists f :: f in files && f.version == Highest(files)
  {
    if files != [] {
      var init, last := files[..|files| - 1], files[|files| - 1];
      HighestMeans(init);
      assert forall f :: f in files <==> f in init || f == last;
      if init == [] {
        assert last in files;
      }
    }
  }

  /** The version of the next file. It is above every up version of the directory if and
      only if none of them is the largest 64-bit number. */
  method NextVersion(dir: Dir, clock: nat) returns (v: nat)
    requires clock <= MAX_UINT64 && forall f :: f in dir.upFiles ==> f.version <= MAX_UINT64
    ensures v == Next(clock, Highest(dir.upFiles)) && v <= MAX_UINT64
    ensures Highest(dir.upFiles) < MAX_UINT64 ==> v >= clock
    ensures dir.upFiles != [] ==>
              ((forall f :: f in dir.upFiles ==> f.version < v) <==>
               forall f :: f in dir.upFiles ==> f.version != MAX_UINT64)
  {
    var maxExisting := 0;
    for i := 0 to |dir.upFiles|
      invariant maxExisting == Highest(dir.upFiles[..i])
    {
      assert dir.upFiles[..i + 1][..i] == dir.upFiles[..i];
      if dir.upFiles[i].version > maxExisting {
        maxExisting := dir.upFiles[i].version;
      }
    }
    assert dir.upFiles[..|dir.upFiles|] == dir.upFiles;
    HighestMeans(dir.upFiles);
    if maxExisting >= clock {
      v := (maxExisting + 1) % (MAX_UINT64 + 1);
    } else {
      v := clock;
    }
  }

  predicate IsSlugChar(c: char) {
    'a' <= c <= 'z' || 'A' <= c <= 'Z' || IsDigit(c) || c == '.' || c == '_' || c == '-'
  }

  /** A name with no separator, no leading dot, no blank and no control character. */
  predicate ValidSlug(s: string) {
    && s != [] && (forall i :: 0 <= i < |s| ==> IsSlugChar(s[i]))
    && s[0] != '.' && s[0] != '_' && s[0] != '-'
  }

  predicate IsSpace(c: char) {
    || '\t' <= c <= '\r' || c == ' ' || c == '\U{85}' || c == '\U{A0}' || c == '\U{1680}'
    || '\U{2000}' <= c <= '\U{200A}' || c == '\U{2028}' || c == '\U{2029}' || c == '\U{202F}'
    || c == '\U{205F}' || c == '\U{3000}'
  }

  function TrimLeft(s: string): string {
    if s != [] && IsSpace(s[0]) then TrimLeft(s[1..]) else s
  }

  function TrimRight(s: string): string {
    if s != [] && IsSpace(s[|s| - 1]) then TrimRight(s[..|s| - 1]) else s
  }

  function Underscored(s: string): (r: string)
    ensures |r| == |s| && forall i :: 0 <= i < |s| ==> r[i] == if s[i] == ' ' then '_' else s[i]
  {
    seq(|s|, i requires 0 <= i < |s| => if s[i] == ' ' then '_' else s[i])
  }

  function SlugMigrationName(name: string): (r: Option<string>)
    ensures r.Some? ==> ValidSlug(r.value)
  {
    var s := Underscored(TrimRight(TrimLeft(name)));
    if ValidSlug(s) then Some(s) else None
  }

  /** A name that is already safe is kept as it is. */
  lemma SlugKeepsSafeNames(s: string)
    requires ValidSlug(s)
    ensures SlugMigrationName(s) == Some(s)
  {
    assert IsSlugChar(s[0]) && IsSlugChar(s[|s| - 1]);
    assert Underscored(s) == s;
  }

  ghost predicate AllSpaces(s: string) {
    forall i :: 0 <= i < |s| ==> IsSpace(s[i])
  }

  /** A text without blanks at its ends, empty perhaps. */
  predicate Trim(s: string) {
    s != [] ==> !IsSpace(s[0]) && !IsSpace(s[|s| - 1])
  }

  lemma {:induction false} TrimLeftSkips(lead: string, rest: string)
    requires AllSpaces(lead) && (rest != [] ==> !IsSpace(rest[0]))
    ensures TrimLeft(lead + rest) == rest
  {
    if lead == [] {
      assert lead + rest == rest;
    } else {
      assert (lead + rest)[1..] == lead[1..] + rest;
      TrimLeftSkips(lead[1..], rest);
    }
  }

  lemma {:induction false} TrimRightSkips(core: string, trail: string)
    requires AllSpaces(trail) && (core != [] ==> !IsSpace(core[|core| - 1]))
    ensures TrimRight(core + trail) == core
  {
    if trail == [] {
      assert core + trail == core;
    } else {
      var init := trail[..|trail| - 1];
      assert (core + trail)[..|core + trail| - 1] == core + init;
      TrimRightSkips(core, init);
    }
  }

  /** What a name becomes: the blanks around it go, the spaces inside become underscores,
      and what is not a safe name after that is refused. */
  lemma SlugOf(lead: string, core: string, trail: string)
    requires AllSpaces(lead) && AllSpaces(trail) && Trim(core)
    ensures var slug := SlugMigrationName(lead + core + trail);
            && (slug.Some? <==>
                  && core != [] && core[0] !in {'.', '_', '-'}
                  && forall i :: 0 <= i < |core| ==> IsSlugChar(core[i]) || core[i] == ' ')
            && (slug.Some? ==>
                  && |slug.value| == |core|
                  && forall i :: 0 <= i < |core| ==> slug.value[i] == if core[i] == ' ' then '_' else core[i])
  {
    assert lead + core + trail == lead + (core + trail);
    if core == [] {
      assert lead + core + trail == lead + trail;
      TrimLeftSkips(lead + trail, []);
      assert lead + trail + [] == lead + trail;
    } else {
      TrimLeftSkips(lead, core + trail);
      TrimRightSkips(core, trail);
      SlugWhen(core);
    }
  }

  lemma SlugWhen(core: string)
    requires core != [] && Trim(core)
    ensures ValidSlug(Underscored(core)) <==>
            && core[0] !in {'.', '_', '-'}
            && forall i :: 0 <= i < |core| ==> IsSlugChar(core[i]) || core[i] == ' '
  {
    var u := Underscored(core);
    if ValidSlug(u) {
      forall i | 0 <= i < |core|
        ensures IsSlugChar(core[i]) || core[i] == ' '
      {
        assert IsSlugChar(u[i]);
      }
    }
  }

  /** Every name is one of these. */
  lemma {:induction false} NameSplits(name: string) returns (lead: string, core: string, trail: string)
    ensures name == lead + core + trail && AllSpaces(lead) && AllSpaces(trail) && Trim(core)
  {
    if name == [] || (!IsSpace(name[0]) && !IsSpace(name[|name| - 1])) {
      lead, core, trail := [], name, [];
    } else if IsSpace(name[0]) {
      lead, core, trail := NameSplits(name[1..]);
      lead := [name[0]] + lead;
      assert name == [name[0]] + name[1..];
    } else {
      var last := |name| - 1;
      lead, core, trail := NameSplits(name[..last]);
      trail := trail + [name[last]];
      assert name == name[..last] + [name[last]];
    }
  }

  lemma AddUsers()
    ensures SlugMigrationName("  add users ") == Some("add_users")
  {
    SlugOf("  ", "add users", " ");
    assert "  " + "add users" + " " == "  add users ";
    var slug := SlugMigrationName("  add users ");
    assert slug.value == "add_users";
  }

  // ----- Decimal numbers -----

  function Digit(d: nat): (c: char)
    requires d < 10
    ensures IsDigit(c) && (c - '0') as nat == d
  {
    '0' + d as char
  }

  function Decimal(v: nat): (s: string)
    ensures AllDigits(s) && |s| > 0
  {
    if v < 10 then [Digit(v)] else Decimal(v / 10) + [Digit(v % 10)]
  }

  /** `%014d`. */
  function Padded(s: string): (r: string)
    requires AllDigits(s)
    ensures AllDigits(r) && |r| >= 14 && |r| >= |s|
    decreases 14 - |s|
  {
    if |s| < 14 then Padded(['0'] + s) else s
  }

  lemma {:induction false} DecimalValue(v: nat)
    ensures Value(Decimal(v)) == v
  {
    if v < 10 {
      assert Decimal(v)[..0] == [];
    } else {
      DecimalValue(v / 10);
      assert Decimal(v)[..|Decimal(v)| - 1] == Decimal(v / 10);
    }
  }

  lemma {:induction false} LeadingZero(s: string)
    requires AllDigits(s)
    ensures Value(['0'] + s) == Value(s)
  {
    if s == [] {
      assert (['0'] + s)[..0] == [];
    } else {
      LeadingZero(s[..|s| - 1]);
      assert (['0'] + s)[..|s|] == ['0'] + s[..|s| - 1];
    }
  }

  lemma {:induction false} PaddedValue(s: string)
    requires AllDigits(s)
    ensures Value(Padded(s)) == Value(s)
    decreases 14 - |s|
  {
    if |s| < 14 {
      LeadingZero(s);
      PaddedValue(['0'] + s);
    }
  }

  // ----- Round trip -----

  function UpFilename(v: nat, slug: string, suffix: string): string {
    Padded(Decimal(v)) + "_" + slug + suffix
  }

  lemma {:induction false} LeadingDigitsOf(digits: string, rest: string)
    requires AllDigits(digits) && (rest != [] ==> !IsDigit(rest[0]))
    ensures LeadingDigits(digits + rest) == |digits|
  {
    if digits == [] {
      assert digits + rest == rest;
    } else {
      LeadingDigitsOf(digits[1..], rest);
      assert (digits + rest)[1..] == digits[1..] + rest;
    }
  }

  lemma MatchOf(digits: string, tail: string, suffix: string)
    requires AllDigits(digits) && digits != []
    ensures Match(digits + "_" + tail, suffix) == if MatchesTail(tail, suffix) then Some(Value(digits)) else None
  {
    var name := digits + "_" + tail;
    assert name == digits + ("_" + tail);
    LeadingDigitsOf(digits, "_" + tail);
    assert name[..|digits|] == digits && name[|digits| + 1..] == tail;
  }

  lemma EndsWithTail(prefix: string, tail: string, suffix: string)
    requires '_' !in suffix
    ensures EndsWith(prefix + "_" + tail, suffix) <==> EndsWith(tail, suffix)
  {
    var name := prefix + "_" + tail;
    if |suffix| <= |tail| {
      assert name[|name| - |suffix|..] == tail[|tail| - |suffix|..];
    } else if EndsWith(name, suffix) {
      UnderscoreInside(prefix, tail, suffix);
    }
  }

  lemma UnderscoreInside(prefix: string, tail: string, suffix: string)
    requires |suffix| > |tail| && EndsWith(prefix + "_" + tail, suffix)
    ensures '_' in suffix
  {
    var name := prefix + "_" + tail;
    assert name[|prefix|] == '_';
    assert suffix[|suffix| - |tail| - 1] == name[|name| - |tail| - 1];
  }

  lemma SlugMatches(slug: string, suffix: string)
    requires ValidSlug(slug)
    ensures MatchesTail(slug + suffix, suffix)
  {
    assert (slug + suffix)[|slug|..] == suffix && (slug + suffix)[..|slug|] == slug;
  }

  /** How any name with a version and an underscore is read, whatever the number of its
      digits: down files first, and a project's own up suffix never takes a default one. */
  lemma NameReadsAs(digits: string, tail: string, suffix: string)
    requires AllDigits(digits) && digits != []
    ensures Classify(digits + "_" + tail, suffix) ==
            if MatchesTail(tail, DOWN) then (if Value(digits) <= MAX_UINT64 then Down(Value(digits)) else Other)
            else if !MatchesTail(tail, suffix) || (suffix != UP && EndsWith(tail, UP)) then Other
            else if Value(digits) <= MAX_UINT64 then Up(Value(digits)) else Other
  {
    MatchOf(digits, tail, suffix);
    MatchOf(digits, tail, DOWN);
    EndsWithTail(digits, tail, UP);
  }

  /** No other name is read. */
  lemma OtherNamesAreNot(name: string, suffix: string)
    requires forall k :: 0 < k < |name| && AllDigits(name[..k]) ==> name[k] != '_'
    ensures Classify(name, suffix) == Other
  {
  }

  /** What a scaffolded name reads back as: a down file's version if its slug and suffix
      end like a down file's, nothing if a suffix of the project's own ends up like the
      default one, and otherwise the version it was printed from. */
  lemma ScaffoldedNameReadsAs(v: nat, slug: string, suffix: string)
    requires v <= MAX_UINT64 && ValidSlug(slug) && suffix != ""
    ensures Classify(UpFilename(v, slug, suffix), suffix) ==
            if MatchesTail(slug + suffix, DOWN) then Down(v)
            else if suffix != UP && EndsWith(slug + suffix, UP) then Other
            else Up(v)
  {
    var digits, tail := Padded(Decimal(v)), slug + suffix;
    DecimalValue(v);
    PaddedValue(Decimal(v));
    assert UpFilename(v, slug, suffix) == digits + "_" + tail;
    MatchOf(digits, tail, suffix);
    MatchOf(digits, tail, DOWN);
    EndsWithTail(digits, tail, UP);
    SlugMatches(slug, suffix);
  }

  lemma UpIsNotDown(slug: string)
    ensures !EndsWith(slug + UP, DOWN)
  {
    var tail := slug + UP;
    if |tail| >= |DOWN| {
      assert tail[|tail| - |DOWN|..][2] == tail[|tail| - 7] == UP[0];
    }
  }

  /** With the default suffix it is always the version. */
  lemma DefaultNameReadsBack(v: nat, slug: string)
    requires v <= MAX_UINT64 && ValidSlug(slug)
    ensures Classify(UpFilename(v, slug, UP), UP) == Up(v)
  {
    ScaffoldedNameReadsAs(v, slug, UP);
    UpIsNotDown(slug);
  }

  lemma EndsWithItsEnd(front: string, end: string)
    ensures EndsWith(front + end, end) && (front + end)[..|front|] == front
  {
    assert (front + end)[|front|..] == end;
  }

  /** Slugs that a suffix of the project's own turns into something else: a down file, and
      a name that is passed over. */
  lemma OtherSuffixesMislead(v: nat)
    requires v <= MAX_UINT64
    ensures Classify(UpFilename(v, "a.down", ".sql"), ".sql") == Down(v)
    ensures Classify(UpFilename(v, "a.up", ".sql"), ".sql") == Other
  {
    var down, up := "a.down", "a.up";
    assert ValidSlug(down) && ValidSlug(up);
    assert down + ".sql" == "a" + DOWN && up + ".sql" == "a" + UP;
    EndsWithItsEnd("a", DOWN);
    EndsWithItsEnd("a", UP);
    assert MatchesTail("a" + DOWN, DOWN);
    ScaffoldedNameReadsAs(v, down, ".sql");
    ScaffoldedNameReadsAs(v, up, ".sql");
  }

  /** Above a file with the largest version the next version is 0, below it. */
  lemma NextWraps(clock: nat, f: File)
    requires clock <= MAX_UINT64 && f.version == MAX_UINT64
    ensures Next(clock, Highest([f])) == 0 < f.version
  {
    assert [f][..0] == [];
  }

  method NextUpFilename(dir: Dir, clock: nat, name: string, upSuffix: string) returns (filename: Option<string>)
    requires clock <= MAX_UINT64 && forall f :: f in dir.upFiles ==> f.version <= MAX_UINT64
    ensures filename ==
            match SlugMigrationName(name)
            case None => None
            case Some(slug) =>
              Some(UpFilename(Next(clock, Highest(dir.upFiles)), slug, if upSuffix == "" then UP else upSuffix))
  {
    var ver := NextVersion(dir, clock);
    var slug := SlugMigrationName(name);
    if slug == None {
      return None;
    }
    var suffix := upSuffix;
    if suffix == "" {
      suffix := UP;
    }
    filename := Some(UpFilename(ver, slug.value, suffix));
  }

  lemma OneMoreVersion(files: seq<File>, f: File)
    requires DistinctVersions(files) && forall g :: g in files ==> g.version < f.version
    ensures DistinctVersions(files + [f])
  {
    forall i | 0 <= i < |files|
      ensures files[i].version < f.version
    {
      assert files[i] in files;
    }
  }

  lemma OneMoreEntry(entries: seq<DirEntry>, e: DirEntry, v: nat)
    requires !e.isDir && Classify(e.name, UP) == Up(v)
    ensures UpsOf(entries + [e], UP) == UpsOf(entries, UP) + [File(v, e.name, e.sql)]
  {
    assert (entries + [e])[..|entries|] == entries;
  }

  lemma PendingOnTop(ups: seq<File>, f: File, downs: seq<File>, st: State)
    requires DistinctVersions(ups) && (forall g :: g in ups ==> g.version < f.version)
    requires st.hasVersion ==> st.version < f.version
    ensures var dir := Dir(SortFiles(ups + [f]), IndexOf(ups + [f]), IndexOf(downs));
            dir.Valid() && f in dir.Pending(st) && forall g :: g in dir.upFiles <==> g in ups || g == f
  {
    OneMoreVersion(ups, f);
    SortFilesMeans(ups + [f]);
    ListingIsValid(ups + [f], downs);
    AfterMeans(SortFiles(ups + [f]), st.version, st.hasVersion);
  }

  lemma NextIsAbove(ups: seq<File>, clock: nat)
    requires Highest(ups) < MAX_UINT64 && clock <= MAX_UINT64
    ensures Highest(ups) < Next(clock, Highest(ups)) <= MAX_UINT64
    ensures forall g :: g in ups ==> g.version < Next(clock, Highest(ups))
  {
    HighestMeans(ups);
  }

  /** The file `NextUpFilename` names for a directory. */
  function Scaffolded(entries: seq<DirEntry>, clock: nat, slug: string, sql: string): File {
    var v := Next(clock, Highest(UpsOf(entries, UP)));
    File(v, UpFilename(v, slug, UP), sql)
  }

  /** A file scaffolded into a directory and read back with it is pending at every
      watermark up to the old maximum, provided that maximum is below 2^64 - 1; the other
      files are read as before. */
  lemma ScaffoldedFileIsPending(entries: seq<DirEntry>, clock: nat, slug: string, sql: string, st: State)
    requires DistinctVersions(UpsOf(entries, UP)) && clock <= MAX_UINT64 && ValidSlug(slug)
    requires Highest(UpsOf(entries, UP)) < MAX_UINT64
    requires st.hasVersion ==> st.version <= Highest(UpsOf(entries, UP))
    ensures var f := Scaffolded(entries, clock, slug, sql);
            var dir := DirOf(entries + [DirEntry(f.name, false, sql)], "");
            && dir.Valid() && f in dir.Pending(st)
            && forall g :: g in dir.upFiles <==> g in UpsOf(entries, UP) || g == f
  {
    var ups, f := UpsOf(entries, UP), Scaffolded(entries, clock, slug, sql);
    var e := DirEntry(f.name, false, sql);
    NextIsAbove(ups, clock);
    DefaultNameReadsBack(f.version, slug);
    OneMoreEntry(entries, e, f.version);
    PendingOnTop(ups, f, DownsOf(entries + [e], UP), st);
    assert DirOf(entries + [e], "") ==
           Dir(SortFiles(ups + [f]), IndexOf(ups + [f]), IndexOf(DownsOf(entries + [e], UP)));
  }

  lemma {:induction false} UpsInRange(entries: seq<DirEntry>, suffix: string)
    ensures Highest(UpsOf(entries, suffix)) <= MAX_UINT64
    decreases |entries|
  {
    if entries != [] {
      var init, e := entries[..|entries| - 1], entries[|entries| - 1];
      UpsInRange(init, suffix);
      UpInRange(e.name, suffix);
      match Classify(e.name, suffix)
      case Up(v) => HighestNext(UpsOf(init, suffix), File(v, e.name, e.sql));
      case _ =>
    }
  }

  lemma UpInRange(name: string, suffix: string)
    ensures var k := Classify(name, suffix); k.Up? ==> k.version <= MAX_UINT64
  {
  }

  lemma HighestNext(files: seq<File>, f: File)
    ensures Highest(files + [f]) == if f.version > Highest(files) then f.version else Highest(files)
  {
    assert (files + [f])[..|files|] == files;
  }

  lemma NextInRange(clock: nat, highest: nat)
    requires clock <= MAX_UINT64 && highest <= MAX_UINT64
    ensures Next(clock, highest) <= MAX_VERSION <==>
            (clock <= MAX_VERSION && highest < MAX_VERSION) || highest == MAX_UINT64
  {
  }

  /** Pending is not yet runnable: when its turn comes, the scaffolded file can be marked
      if and only if the clock and every version before it leave room below the largest
      version the ledger stores, or the version has wrapped to 0. */
  lemma ScaffoldedFileCanBeMarked(entries: seq<DirEntry>, clock: nat, slug: string, sql: string, w: Protocol.World,
                                  p: nat, rest: seq<File>)
    requires clock <= MAX_UINT64
    requires Protocol.Pc(w, p) == Protocol.Running(Protocol.Forward, [Scaffolded(entries, clock, slug, sql)] + rest)
    ensures Protocol.Enabled(w, Protocol.Mark(p)) <==>
            var highest := Highest(UpsOf(entries, UP));
            (clock <= MAX_VERSION && highest < MAX_VERSION) || highest == MAX_UINT64
  {
    UpsInRange(entries, UP);
    NextInRange(clock, Highest(UpsOf(entries, UP)));
    CanBeMarked(w, p);
  }

  lemma CanBeMarked(w: Protocol.World, p: nat)
    requires Protocol.Pc(w, p).Running? && Protocol.Pc(w, p).plan != []
    ensures Protocol.Enabled(w, Protocol.Mark(p)) <==> Protocol.Pc(w, p).plan[0].version <= MAX_VERSION
  {
  }

  /** Above a file with the largest version the ledger stores, it refuses the next one. */
  lemma NextIsTooLarge(clock: nat, f: File)
    requires clock <= MAX_VERSION && f.version == MAX_VERSION
    ensures Next(clock, Highest([f])) == MAX_VERSION + 1
  {
    assert [f][..0] == [];
  }
}
