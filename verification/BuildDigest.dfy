/**
  What the build digest hashes (scripts/write-build-info.js): a domain, then every collected
  file's relative path, length and content, in path order, the last entry for a path winning.
 */
module BuildDigest {
  import opened Wrappers
  import opened Base64Url
  import opened Text

  datatype Entry = Entry(relative: string, absolute: string)

  datatype File = File(name: string, content: Bytes)

  // ---------- Collected entries ----------

  function Final(entries: seq<Entry>): map<string, string>
  {
    if |entries| == 0 then map[]
    else
      var n := |entries| - 1;
      Final(entries[..n])[entries[n].relative := entries[n].absolute]
  }

  /** The relative paths in the order in which they first appeared. */
  function Names(entries: seq<Entry>): seq<string>
  {
    if |entries| == 0 then []
    else
      var n := |entries| - 1;
      var before := Names(entries[..n]);
      if entries[n].relative in before then before else before + [entries[n].relative]
  }

  lemma {:induction false} NamesAreTheKeys(entries: seq<Entry>)
    ensures Distinct(Names(entries)) && forall n :: n in Names(entries) <==> n in Final(entries)
  {
    if |entries| > 0 {
      NamesAreTheKeys(entries[..|entries| - 1]);
    }
  }

  /** The files on disk that the entries stand for. */
  function Tree(entries: seq<Entry>, disk: string -> Bytes): map<string, Bytes>
  {
    map name | name in Final(entries) :: disk(Final(entries)[name])
  }

  function Listing(names: seq<string>, tree: map<string, Bytes>): seq<File>
    requires forall n :: n in names ==> n in tree
  {
    seq(|names|, i requires 0 <= i < |names| => assert names[i] in names; File(names[i], tree[names[i]]))
  }

  // ---------- The preimage ----------

  function EncodeFile(file: File): Bytes
  {
    Utf8(file.name) + [0] + Decimal(|file.content|) + [0] + file.content
  }

  function EncodeFiles(files: seq<File>): Bytes
  {
    if |files| == 0 then [] else EncodeFiles(files[..|files| - 1]) + EncodeFile(files[|files| - 1])
  }

  function ListingOf(entries: seq<Entry>, disk: string -> Bytes): seq<File>
  {
    NamesAreTheKeys(entries);
    SortedSorts(Names(entries));
    Listing(Sorted(Names(entries)), Tree(entries, disk))
  }

  function Preimage(domain: string, entries: seq<Entry>, disk: string -> Bytes): Bytes
  {
    Utf8(domain) + [0] + EncodeFiles(ListingOf(entries, disk))
  }

  /** The entries of the last path-to-file assignment, in path order. */
  ghost predicate IsUniqueSorted(entries: seq<Entry>, sorted: seq<Entry>)
  {
    var names := Sorted(Names(entries));
    && |sorted| == |names|
    && (forall i :: 0 <= i < |sorted| ==>
          names[i] in Final(entries) && sorted[i].relative == names[i] &&
          sorted[i].absolute == Final(entries)[names[i]])
  }

  method UniqueSorted(entries: seq<Entry>) returns (sorted: seq<Entry>)
    ensures IsUniqueSorted(entries, sorted)
    ensures forall i, j :: 0 <= i < j < |sorted| ==> Less(sorted[i].relative, sorted[j].relative)
  {
    var byRelative, order := FillByRelative(entries);
    NamesAreTheKeys(entries);
    SortedSorts(order);
    sorted := ListInOrder(Sorted(order), byRelative);
  }

  method ListInOrder(names: seq<string>, byRelative: map<string, string>) returns (sorted: seq<Entry>)
    requires forall n :: n in names ==> n in byRelative
    ensures |sorted| == |names|
    ensures forall i :: 0 <= i < |names| ==>
              names[i] in byRelative && sorted[i] == Entry(names[i], byRelative[names[i]])
  {
    sorted := [];
    for i := 0 to |names|
      invariant |sorted| == i
      invariant forall k :: 0 <= k < i ==> names[k] in byRelative && sorted[k] == Entry(names[k], byRelative[names[k]])
    {
      assert names[i] in names;
      sorted := sorted + [Entry(names[i], byRelative[names[i]])];
    }
  }

  /** The loop that fills the map, with its insertion order. */
  method FillByRelative(entries: seq<Entry>) returns (byRelative: map<string, string>, order: seq<string>)
    ensures byRelative == Final(entries) && order == Names(entries)
  {
    byRelative, order := map[], [];
    for i := 0 to |entries|
      invariant byRelative == Final(entries[..i]) && order == Names(entries[..i])
    {
      assert entries[..i + 1][..i] == entries[..i];
      var entry := entries[i];
      NamesAreTheKeys(entries[..i]);
      if entry.relative !in byRelative {
        order := order + [entry.relative];
      }
      byRelative := byRelative[entry.relative := entry.absolute];
    }
    assert entries[..|entries|] == entries;
  }

  lemma OneFileMore(files: seq<File>, i: nat, file: File)
    requires i < |files| && files[i] == file
    ensures EncodeFiles(files[..i + 1]) ==
            EncodeFiles(files[..i]) + Utf8(file.name) + [0] + Decimal(|file.content|) + [0] + file.content
  {
    assert files[..i + 1][..i] == files[..i];
  }

  /** Everything fed to the hash. */
  method DigestEntries(entries: seq<Entry>, domain: string, disk: string -> Bytes) returns (hashed: Bytes)
    ensures hashed == Preimage(domain, entries, disk)
  {
    var header := Utf8(domain) + [0];
    var sorted := UniqueSorted(entries);
    var fed := FeedFiles(entries, sorted, disk);
    hashed := header + fed;
  }

  /** The loop over the sorted entries, updating the hash piece by piece. */
  method FeedFiles(entries: seq<Entry>, sorted: seq<Entry>, disk: string -> Bytes) returns (fed: Bytes)
    requires IsUniqueSorted(entries, sorted)
    ensures fed == EncodeFiles(ListingOf(entries, disk))
  {
    fed := [];
    ghost var files := ListingOf(entries, disk);
    for i := 0 to |sorted|
      invariant fed == EncodeFiles(files[..i])
    {
      var content := disk(sorted[i].absolute);
      OneFileMore(files, i, File(sorted[i].relative, content));
      fed := fed + Utf8(sorted[i].relative);
      fed := fed + [0];
      fed := fed + Decimal(|content|);
      fed := fed + [0];
      fed := fed + content;
    }
    assert files[..|sorted|] == files;
  }

  // ---------- Decoding ----------

  /** The field up to the first NUL and what follows it. */
  function Field(b: Bytes): Option<(Bytes, Bytes)>
  {
    if |b| == 0 then None
    else if b[0] == 0 then Some(([], b[1..]))
    else
      match Field(b[1..])
      case None => None
      case Some((field, rest)) => Some(([b[0]] + field, rest))
  }

  lemma {:induction false} FieldIsExact(field: Bytes, rest: Bytes)
    requires 0 !in field
    ensures Field(field + [0] + rest) == Some((field, rest))
  {
    var b := field + [0] + rest;
    if |field| == 0 {
      assert b[1..] == rest;
    } else {
      FieldIsExact(field[1..], rest);
      assert b[1..] == field[1..] + [0] + rest;
      assert 0 !in field[1..];
      assert [b[0]] + field[1..] == field;
    }
  }

  lemma {:induction false} FieldShrinks(b: Bytes)
    ensures Field(b).Some? ==> |Field(b).value.1| < |b|
  {
    if |b| > 0 && b[0] != 0 {
      FieldShrinks(b[1..]);
    }
  }

  /** The named contents the bytes spell out, names still encoded. */
  function DecodeFiles(b: Bytes): Option<seq<(Bytes, Bytes)>>
    decreases |b|
  {
    FieldShrinks(b);
    if |b| == 0 then Some([])
    else if Field(b).None? then None
    else
      var (name, afterName) := Field(b).value;
      FieldShrinks(afterName);
      if Field(afterName).None? then None
      else
        var (numeral, afterLength) := Field(afterName).value;
        var length := Numeral(numeral);
        if 0 <= length <= |afterLength| then
          match DecodeFiles(afterLength[length..])
          case None => None
          case Some(files) => Some([(name, afterLength[..length])] + files)
        else None
  }

  function Encoded(files: seq<File>): seq<(Bytes, Bytes)>
  {
    seq(|files|, i requires 0 <= i < |files| => (Utf8(files[i].name), files[i].content))
  }

  predicate NulFree(s: string)
  {
    0 as char !in s
  }

  lemma {:induction false} EncodeFromFront(file: File, rest: seq<File>)
    ensures EncodeFiles([file] + rest) == EncodeFile(file) + EncodeFiles(rest)
    decreases |rest|
  {
    var files := [file] + rest;
    if |rest| == 0 {
      assert files[..0] == [] && EncodeFiles([]) == [] && files[0] == file;
    } else {
      var n := |rest| - 1;
      EncodeFromFront(file, rest[..n]);
      assert files[..n + 1] == [file] + rest[..n] && files[n + 1] == rest[n];
      var front, middle, last := EncodeFile(file), EncodeFiles(rest[..n]), EncodeFile(rest[n]);
      assert (front + middle) + last == front + (middle + last);
    }
  }

  lemma FileFields(name: Bytes, content: Bytes, rest: Bytes)
    requires 0 !in name
    ensures var b := name + [0] + Decimal(|content|) + [0] + content + rest;
            var afterName := Decimal(|content|) + [0] + (content + rest);
            Field(b) == Some((name, afterName)) && Field(afterName) == Some((Decimal(|content|), content + rest))
  {
    var afterName := Decimal(|content|) + [0] + (content + rest);
    NumeralIsExact(|content|);
    FieldIsExact(name, afterName);
    FieldIsExact(Decimal(|content|), content + rest);
    Regroup(name, [0], Decimal(|content|), [0], content, rest);
  }

  lemma Regroup(a: Bytes, b: Bytes, c: Bytes, d: Bytes, e: Bytes, f: Bytes)
    ensures a + b + c + d + e + f == a + b + (c + d + (e + f))
  {
    assert c + d + e + f == c + d + (e + f);
    assert a + b + (c + d + e + f) == a + b + c + d + e + f;
  }

  lemma DecodeUnfolds(b: Bytes, name: Bytes, afterName: Bytes, numeral: Bytes, content: Bytes, rest: Bytes)
    requires Field(b) == Some((name, afterName)) && Field(afterName) == Some((numeral, content + rest))
    requires Numeral(numeral) == |content|
    ensures DecodeFiles(b) ==
            match DecodeFiles(rest)
            case None => None
            case Some(files) => Some([(name, content)] + files)
  {
    var tail := content + rest;
    assert tail[..|content|] == content && tail[|content|..] == rest;
  }

  lemma DecodeFirst(file: File, rest: Bytes)
    requires NulFree(file.name)
    ensures DecodeFiles(EncodeFile(file) + rest) ==
            match DecodeFiles(rest)
            case None => None
            case Some(files) => Some([(Utf8(file.name), file.content)] + files)
  {
    var name, numeral := Utf8(file.name), Decimal(|file.content|);
    AsciiStandsForItself(file.name, 0);
    NumeralIsExact(|file.content|);
    FileFields(name, file.content, rest);
    DecodeUnfolds(EncodeFile(file) + rest, name, numeral + [0] + (file.content + rest), numeral, file.content, rest);
  }

  lemma FilesStep(file: File, rest: seq<File>, bytes: Bytes)
    requires NulFree(file.name) && DecodeFiles(bytes) == Some(Encoded(rest))
    ensures DecodeFiles(EncodeFile(file) + bytes) == Some(Encoded([file] + rest))
  {
    DecodeFirst(file, bytes);
    assert [(Utf8(file.name), file.content)] + Encoded(rest) == Encoded([file] + rest);
  }

  /** Decoding undoes encoding. */
  lemma {:induction false} FilesRoundTrip(files: seq<File>)
    requires forall i :: 0 <= i < |files| ==> NulFree(files[i].name)
    ensures DecodeFiles(EncodeFiles(files)) == Some(Encoded(files))
    decreases |files|
  {
    if |files| > 0 {
      var file, rest := files[0], files[1..];
      assert files == [file] + rest;
      FilesRoundTrip(rest);
      FilesStep(file, rest, EncodeFiles(rest));
      EncodeFromFront(file, rest);
    } else {
      assert Encoded(files) == [] && EncodeFiles(files) == [];
    }
  }

  lemma ListingIsInjective(a: seq<File>, b: seq<File>)
    requires Encoded(a) == Encoded(b)
    ensures a == b
  {
    assert |a| == |Encoded(a)| == |b|;
    forall i | 0 <= i < |a| ensures a[i] == b[i] {
      assert Encoded(a)[i] == Encoded(b)[i];
      Utf8IsInjective(a[i].name, b[i].name);
    }
  }

  predicate NulFreeNames(entries: seq<Entry>)
  {
    forall i :: 0 <= i < |entries| ==> NulFree(entries[i].relative)
  }

  lemma {:induction false} NamesAreNulFree(entries: seq<Entry>, name: string)
    requires NulFreeNames(entries) && name in Final(entries)
    ensures NulFree(name)
  {
    var n := |entries| - 1;
    if name != entries[n].relative {
      NamesAreNulFree(entries[..n], name);
    }
  }

  lemma DecodesPreimage(domain: string, entries: seq<Entry>, disk: string -> Bytes)
    requires NulFree(domain) && NulFreeNames(entries)
    ensures Field(Preimage(domain, entries, disk)) == Some((Utf8(domain), EncodeFiles(ListingOf(entries, disk))))
    ensures DecodeFiles(EncodeFiles(ListingOf(entries, disk))) == Some(Encoded(ListingOf(entries, disk)))
  {
    var files := ListingOf(entries, disk);
    AsciiStandsForItself(domain, 0);
    FieldIsExact(Utf8(domain), EncodeFiles(files));
    NamesAreTheKeys(entries);
    SortedSorts(Names(entries));
    forall i | 0 <= i < |files| ensures NulFree(files[i].name) {
      assert files[i].name in Sorted(Names(entries));
      NamesAreNulFree(entries, files[i].name);
    }
    FilesRoundTrip(files);
  }

  /** A tree has one listing, and a listing one tree. */
  lemma ListingExact(a: seq<Entry>, diskA: string -> Bytes, b: seq<Entry>, diskB: string -> Bytes)
    ensures ListingOf(a, diskA) == ListingOf(b, diskB) <==> Tree(a, diskA) == Tree(b, diskB)
  {
    var x, y := Sorted(Names(a)), Sorted(Names(b));
    NamesAreTheKeys(a);
    NamesAreTheKeys(b);
    SortedSorts(Names(a));
    SortedSorts(Names(b));
    if Tree(a, diskA) == Tree(b, diskB) {
      assert Tree(a, diskA).Keys == Final(a).Keys && Tree(b, diskB).Keys == Final(b).Keys;
      AscendingIsUnique(x, y);
    }
    if ListingOf(a, diskA) == ListingOf(b, diskB) {
      SameListingSameTree(a, diskA, b, diskB);
    }
  }

  lemma SameListingSameTree(a: seq<Entry>, diskA: string -> Bytes, b: seq<Entry>, diskB: string -> Bytes)
    requires ListingOf(a, diskA) == ListingOf(b, diskB)
    ensures Tree(a, diskA) == Tree(b, diskB)
  {
    var x, y := ListingOf(a, diskA), ListingOf(b, diskB);
    forall name ensures name in Tree(a, diskA) <==> exists i :: 0 <= i < |x| && x[i].name == name {
      ListedExactly(a, diskA, name);
    }
    forall name ensures name in Tree(b, diskB) <==> exists i :: 0 <= i < |y| && y[i].name == name {
      ListedExactly(b, diskB, name);
    }
    forall name | name in Tree(a, diskA)
      ensures name in Tree(b, diskB) && Tree(a, diskA)[name] == Tree(b, diskB)[name]
    {
      var i :| 0 <= i < |x| && x[i].name == name;
    }
  }

  lemma ListedExactly(entries: seq<Entry>, disk: string -> Bytes, name: string)
    ensures var files := ListingOf(entries, disk);
            name in Tree(entries, disk) <==> exists i :: 0 <= i < |files| && files[i].name == name
  {
    NamesAreTheKeys(entries);
    SortedSorts(Names(entries));
    var files := ListingOf(entries, disk);
    var names := Sorted(Names(entries));
    if name in Tree(entries, disk) {
      var i :| 0 <= i < |names| && names[i] == name;
      assert files[i].name == name;
    }
    if exists i :: 0 <= i < |files| && files[i].name == name {
      var i :| 0 <= i < |files| && files[i].name == name;
      assert names[i] in names;
    }
  }

  /** What is hashed is the same exactly when the domain and the tree, path by path and byte by byte, are the same. */
  lemma PreimageExact(
    domainA: string, a: seq<Entry>, diskA: string -> Bytes, domainB: string, b: seq<Entry>, diskB: string -> Bytes)
    requires NulFree(domainA) && NulFree(domainB) && NulFreeNames(a) && NulFreeNames(b)
    ensures Preimage(domainA, a, diskA) == Preimage(domainB, b, diskB) <==>
            domainA == domainB && Tree(a, diskA) == Tree(b, diskB)
  {
    DecodesPreimage(domainA, a, diskA);
    DecodesPreimage(domainB, b, diskB);
    ListingExact(a, diskA, b, diskB);
    if Preimage(domainA, a, diskA) == Preimage(domainB, b, diskB) {
      Utf8IsInjective(domainA, domainB);
      ListingIsInjective(ListingOf(a, diskA), ListingOf(b, diskB));
    }
  }

  // ---------- Order of collection ----------

  predicate DistinctPaths(entries: seq<Entry>)
  {
    forall i, j :: 0 <= i < j < |entries| ==> entries[i].relative != entries[j].relative
  }

  lemma {:induction false} FinalHolds(entries: seq<Entry>)
    requires DistinctPaths(entries)
    ensures forall name, absolute ::
              name in Final(entries) && Final(entries)[name] == absolute <==> Entry(name, absolute) in entries
  {
    if |entries| > 0 {
      var n := |entries| - 1;
      FinalHolds(entries[..n]);
      assert entries == entries[..n] + [entries[n]];
    }
  }

  /** Any order of collecting the same entries, with no path twice, hashes the same bytes. */
  lemma CollectionOrderIsFree(domain: string, a: seq<Entry>, b: seq<Entry>, disk: string -> Bytes)
    requires DistinctPaths(a) && multiset(a) == multiset(b)
    ensures DistinctPaths(b) && Preimage(domain, a, disk) == Preimage(domain, b, disk)
  {
    PermutedPathsAreDistinct(a, b);
    FinalHolds(a);
    FinalHolds(b);
    forall e ensures e in a <==> e in b {
      assert e in a <==> e in multiset(a);
      assert e in b <==> e in multiset(b);
    }
    forall name ensures name in Final(a) <==> name in Final(b) {
      assert name in Final(a) ==> Entry(name, Final(a)[name]) in a;
      assert name in Final(b) ==> Entry(name, Final(b)[name]) in b;
    }
    forall name | name in Final(a) ensures Final(a)[name] == Final(b)[name] {
      assert Entry(name, Final(a)[name]) in b;
    }
    assert Final(a) == Final(b);
    assert Tree(a, disk) == Tree(b, disk);
    ListingExact(a, disk, b, disk);
  }

  lemma OneEntryAPath(a: seq<Entry>, e: Entry, f: Entry)
    requires DistinctPaths(a) && e in a && f in a && e.relative == f.relative
    ensures e == f
  {
  }

  lemma PermutedPathsAreDistinct(a: seq<Entry>, b: seq<Entry>)
    requires DistinctPaths(a) && multiset(a) == multiset(b)
    ensures DistinctPaths(b)
  {
    forall i, j | 0 <= i < j < |b| ensures b[i].relative != b[j].relative {
      if b[i].relative == b[j].relative {
        assert b[i] in multiset(a) && b[j] in multiset(a);
        OneEntryAPath(a, b[i], b[j]);
        assert b == b[..i] + [b[i]] + b[i + 1..j] + [b[j]] + b[j + 1..];
        assert multiset(b)[b[i]] >= 2;
        OncePerEntry(a, b[i]);
      }
    }
  }

  lemma {:induction false} OncePerEntry(a: seq<Entry>, e: Entry)
    requires DistinctPaths(a)
    ensures multiset(a)[e] <= 1
  {
    if |a| > 0 {
      var n := |a| - 1;
      OncePerEntry(a[..n], e);
      assert a == a[..n] + [a[n]];
      if a[n] == e {
        assert e !in a[..n];
        assert multiset(a[..n])[e] == 0;
      }
    }
  }

  /** Without the NUL-free premise the encoding is ambiguous: one file's content can read as a longer file name. */
  lemma NulNamesCollide()
    ensures exists a: File, b: File :: a != b && EncodeFile(a) == EncodeFile(b)
  {
    var zero := 0 as char;
    var a := File("a", [98, 0, 48, 0]);
    var b := File("a" + [zero] + "4" + [zero] + "b", []);
    assert Decimal(4) == [52] && Decimal(0) == [48];
    assert Utf8("a") == [97] by { Utf8OfOne("a"); }
    LongNameBytes(b.name);
    assert EncodeFile(a) == [97, 0, 52, 0, 98, 0, 48, 0];
    assert EncodeFile(b) == [97, 0, 52, 0, 98, 0, 48, 0];
  }

  lemma LongNameBytes(name: string)
    requires name == ['a', 0 as char, '4', 0 as char, 'b']
    ensures Utf8(name) == [97, 0, 52, 0, 98]
  {
    Utf8OfOne(name);
    Utf8OfOne(name[1..]);
    Utf8OfOne(name[2..]);
    Utf8OfOne(name[3..]);
    Utf8OfOne(name[4..]);
  }

  lemma Utf8OfOne(s: string)
    requires |s| > 0 && s[0] < 0x80 as char
    ensures Utf8(s) == [s[0] as int] + Utf8(s[1..])
  {
  }
}
