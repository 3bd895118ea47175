/** `PNGCollectionEncoder.format`: stored images listed by folder, the rest under `root`. */
module CollectionFormat {
  import opened Collections
  import opened Options
  import opened PngCollectionEncoder

  type Listing = map<string, seq<EncodedImage>>

  function Get(images: map<string, string>, name: string): Option<string> {
    if name in images then Some(images[name]) else None
  }

  /** The entries of the given images, in order. */
  function Entries(images: map<string, string>, names: seq<string>): (s: seq<EncodedImage>)
    ensures |s| == |names| && forall i :: 0 <= i < |s| ==> s[i] == EncodedImage(names[i], Get(images, names[i]))
  {
    seq(|names|, i requires 0 <= i < |names| => EncodedImage(names[i], Get(images, names[i])))
  }

  ghost predicate IsFiled(folders: map<string, seq<string>>, name: string) {
    exists f :: f in folders && name in folders[f]
  }

  /** No image was filed twice, in one folder or in two. */
  ghost predicate FiledOnce(folders: map<string, seq<string>>) {
    && (forall f :: f in folders ==> NoDup(folders[f]))
    && (forall f, g, n :: f in folders && g in folders && n in folders[f] && n in folders[g] ==> f == g)
  }

  /** All names in the folders. */
  ghost function Filed(folders: map<string, seq<string>>): (filed: set<string>)
    ensures forall n :: n in filed <==> IsFiled(folders, n)
  {
    set f, n | f in folders && n in folders[f] :: n
  }

  /** The listing by folder: every folder's images in encoding order, the unfiled ones in encoding order under `root`. */
  ghost function ByFolder(names: seq<string>, images: map<string, string>, folders: map<string, seq<string>>): Listing {
    var rest := Without(names, Filed(folders));
    (map f | f in folders :: Entries(images, folders[f])) + (if rest == [] then map[] else map["root" := Entries(images, rest)])
  }

  /** Image `n` is entry i of the list f, with its payload. */
  ghost predicate ListedAt(data: Listing, images: map<string, string>, n: string, f: string, i: int) {
    f in data && 0 <= i < |data[f]| && n in images && data[f][i] == EncodedImage(n, Some(images[n]))
  }

  /** Every stored image is listed with its payload, at exactly one place, and nothing else is listed. */
  ghost predicate Partition(data: Listing, images: map<string, string>) {
    && (forall n :: n in images ==> exists f, i :: ListedAt(data, images, n, f, i))
    && (forall n, f, i, g, j :: ListedAt(data, images, n, f, i) && ListedAt(data, images, n, g, j) ==> f == g && i == j)
    && (forall f, i :: f in data && 0 <= i < |data[f]| ==> ListedAt(data, images, data[f][i].filename, f, i))
  }

  lemma EachIsListed(names: seq<string>, images: map<string, string>, folders: map<string, seq<string>>, n: string)
    requires KeysInOrder(names, images) && "root" !in folders && n in images
    ensures exists f, i :: ListedAt(ByFolder(names, images, folders), images, n, f, i)
  {
    var data, rest := ByFolder(names, images, folders), Without(names, Filed(folders));
    if IsFiled(folders, n) {
      var f :| f in folders && n in folders[f];
      var i :| 0 <= i < |folders[f]| && folders[f][i] == n;
      assert ListedAt(data, images, n, f, i);
    } else {
      var i :| 0 <= i < |rest| && rest[i] == n;
      assert ListedAt(data, images, n, "root", i);
    }
  }

  lemma OnlyImagesAreListed(names: seq<string>, images: map<string, string>, folders: map<string, seq<string>>, f: string, i: int)
    requires KeysInOrder(names, images) && "root" !in folders
    requires forall f, i :: f in folders && 0 <= i < |folders[f]| ==> folders[f][i] in images
    requires f in ByFolder(names, images, folders) && 0 <= i < |ByFolder(names, images, folders)[f]|
    ensures ListedAt(ByFolder(names, images, folders), images, ByFolder(names, images, folders)[f][i].filename, f, i)
  {
    if f !in folders { assert Without(names, Filed(folders))[i] in names; }
  }

  lemma ListedOnce(names: seq<string>, images: map<string, string>, folders: map<string, seq<string>>,
                   n: string, f: string, i: int, g: string, j: int)
    requires KeysInOrder(names, images) && FiledOnce(folders) && "root" !in folders
    requires ListedAt(ByFolder(names, images, folders), images, n, f, i) && ListedAt(ByFolder(names, images, folders), images, n, g, j)
    ensures f == g && i == j
  {
    WithoutNoDup(names, Filed(folders));
    ListedIn(names, images, folders, n, f, i);
    ListedIn(names, images, folders, n, g, j);
  }

  lemma ByFolderIsPartition(names: seq<string>, images: map<string, string>, folders: map<string, seq<string>>)
    requires KeysInOrder(names, images) && FiledOnce(folders) && "root" !in folders
    requires forall f, i :: f in folders && 0 <= i < |folders[f]| ==> folders[f][i] in images
    ensures Partition(ByFolder(names, images, folders), images)
  {
    var data := ByFolder(names, images, folders);
    forall n | n in images ensures exists f, i :: ListedAt(data, images, n, f, i) {
      EachIsListed(names, images, folders, n);
    }
    forall n, f, i, g, j | ListedAt(data, images, n, f, i) && ListedAt(data, images, n, g, j) ensures f == g && i == j {
      ListedOnce(names, images, folders, n, f, i, g, j);
    }
    forall f, i | f in data && 0 <= i < |data[f]| ensures ListedAt(data, images, data[f][i].filename, f, i) {
      OnlyImagesAreListed(names, images, folders, f, i);
    }
  }

  /** Where an entry stands tells whether its image was filed. */
  lemma ListedIn(names: seq<string>, images: map<string, string>, folders: map<string, seq<string>>, n: string, f: string, i: int)
    requires "root" !in folders
    requires ListedAt(ByFolder(names, images, folders), images, n, f, i)
    ensures if f in folders then i < |folders[f]| && folders[f][i] == n && n in Filed(folders)
            else f == "root" && i < |Without(names, Filed(folders))| && Without(names, Filed(folders))[i] == n && n !in Filed(folders)
  {
    if f in folders {
      assert folders[f][i] in folders[f] && IsFiled(folders, folders[f][i]);
    } else {
      assert Without(names, Filed(folders))[i] in Without(names, Filed(folders));
    }
  }

  /** Within a folder, and under `root`, the entries keep the order in which the images were filed or stored. */
  lemma ListedInOrder(names: seq<string>, images: map<string, string>, folders: map<string, seq<string>>, f: string, i: nat, j: nat)
    returns (p: nat, q: nat)
    requires "root" !in folders && f in ByFolder(names, images, folders) && i < j < |ByFolder(names, images, folders)[f]|
    ensures var data, list := ByFolder(names, images, folders), if f in folders then folders[f] else names;
            p < q < |list| && data[f][i].filename == list[p] && data[f][j].filename == list[q]
  {
    if f in folders {
      p, q := i, j;
    } else {
      p, q := WithoutKeepsOrder(names, Filed(folders), i, j);
    }
  }

  lemma {:induction false} WithoutMore(s: seq<string>, gone: set<string>, more: set<string>)
    ensures Without(Without(s, gone), more) == Without(s, gone + more)
  {
    if s != [] {
      var init := Without(s[..|s| - 1], gone);
      WithoutMore(s[..|s| - 1], gone, more);
      assert (init + [s[|s| - 1]])[..|init|] == init;
    }
  }

  lemma NothingGone(s: seq<string>)
    ensures Without(s, {}) == s
  {
    WithoutNone(s, {});
  }

  ghost predicate Names(entries: seq<EncodedImage>, names: seq<string>) {
    |entries| == |names| && forall i :: 0 <= i < |entries| ==> entries[i].filename == names[i]
  }

  /** Write all files of a folder, deleting each from the remaining ones once written. */
  method FillFolder(images: map<string, string>, filenames: seq<string>, remaining: seq<string>)
    returns (entries: seq<EncodedImage>, left: seq<string>)
    requires forall n :: n in remaining ==> n in images
    ensures Names(entries, filenames)
    ensures left == Without(remaining, set n | n in filenames)
    ensures NoDup(filenames) && (forall n :: n in filenames ==> n in remaining) ==> entries == Entries(images, filenames)
  {
    entries, left := [], remaining;
    ghost var gone := {};
    NothingGone(remaining);
    for i := 0 to |filenames|
      invariant |entries| == i && forall j :: 0 <= j < i ==> entries[j].filename == filenames[j]
      invariant gone == (set n | n in filenames[..i]) && left == Without(remaining, gone)
      invariant NoDup(filenames) && (forall n :: n in filenames ==> n in remaining) ==>
                  forall j :: 0 <= j < i ==> entries[j] == EncodedImage(filenames[j], Get(images, filenames[j]))
    {
      var filename := filenames[i];
      assert filenames[..i + 1] == filenames[..i] + [filename];
      entries := entries + [EncodedImage(filename, if filename in left then Some(images[filename]) else None)];
      WithoutMore(remaining, gone, {filename});
      left := Without(left, {filename});
      gone := gone + {filename};
    }
    assert filenames[..|filenames|] == filenames;
  }

  /** The names filed under the first `k` folders. */
  ghost predicate GoneAfter(folders: map<string, seq<string>>, order: seq<string>, k: nat, gone: set<string>)
    requires KeysInOrder(order, folders) && k <= |order|
  {
    forall n :: n in gone <==> exists j :: 0 <= j < k && n in folders[order[j]]
  }

  lemma AllFiled(folders: map<string, seq<string>>, order: seq<string>, gone: set<string>)
    requires KeysInOrder(order, folders) && GoneAfter(folders, order, |order|, gone)
    ensures gone == Filed(folders)
  {
    forall n ensures n in gone <==> n in Filed(folders) {
      if IsFiled(folders, n) {
        var f :| f in folders && n in folders[f];
        var j :| 0 <= j < |order| && order[j] == f;
        assert n in folders[order[j]];
      }
    }
  }

  lemma NextGone(folders: map<string, seq<string>>, order: seq<string>, k: nat, gone: set<string>)
    requires KeysInOrder(order, folders) && k < |order| && GoneAfter(folders, order, k, gone)
    ensures GoneAfter(folders, order, k + 1, gone + set n | n in folders[order[k]])
    ensures FiledOnce(folders) ==> forall n :: n in folders[order[k]] ==> n !in gone
  {
  }

  /** Every folder is listed with the names of its images. */
  ghost predicate NamesListed(data: Listing, folders: map<string, seq<string>>) {
    forall f :: f in folders ==> f in data && Names(data[f], folders[f])
  }

  ghost predicate NamesSoFar(data: Listing, folders: map<string, seq<string>>, order: seq<string>, k: nat)
    requires KeysInOrder(order, folders) && k <= |order|
  {
    forall j :: 0 <= j < k ==> order[j] in data && Names(data[order[j]], folders[order[j]])
  }

  lemma NextNames(data: Listing, folders: map<string, seq<string>>, order: seq<string>, k: nat, entries: seq<EncodedImage>)
    requires KeysInOrder(order, folders) && k < |order| && NamesSoFar(data, folders, order, k)
    requires Names(entries, folders[order[k]])
    ensures NamesSoFar(data[order[k] := entries], folders, order, k + 1)
  {
  }

  lemma AllNamesListed(data: Listing, folders: map<string, seq<string>>, order: seq<string>)
    requires KeysInOrder(order, folders) && NamesSoFar(data, folders, order, |order|)
    ensures NamesListed(data, folders)
  {
    forall f | f in folders ensures f in data && Names(data[f], folders[f]) {
      var j :| 0 <= j < |order| && order[j] == f;
    }
  }

  /** An image filed twice is listed twice, and only once with its payload. */
  lemma PartitionNeedsFiledOnce(data: Listing, images: map<string, string>, folders: map<string, seq<string>>)
    requires NamesListed(data, folders) && Partition(data, images)
    ensures FiledOnce(folders)
  {
    forall f, i | f in folders && 0 <= i < |folders[f]| ensures ListedAt(data, images, folders[f][i], f, i) {
      assert data[f][i].filename == folders[f][i];
    }
    forall f | f in folders ensures NoDup(folders[f]) {
      forall i, j | 0 <= i < j < |folders[f]| ensures folders[f][i] != folders[f][j] {
        assert ListedAt(data, images, folders[f][i], f, i) && ListedAt(data, images, folders[f][j], f, j);
      }
    }
    forall f, g, n | f in folders && g in folders && n in folders[f] && n in folders[g] ensures f == g {
      var i :| 0 <= i < |folders[f]| && folders[f][i] == n;
      var j :| 0 <= j < |folders[g]| && folders[g][j] == n;
      assert ListedAt(data, images, n, f, i) && ListedAt(data, images, n, g, j);
    }
  }

  /** The lists of the first `k` folders. */
  ghost predicate Filled(data: Listing, images: map<string, string>, folders: map<string, seq<string>>, order: seq<string>, k: nat)
    requires KeysInOrder(order, folders) && k <= |order|
  {
    && (forall j :: 0 <= j < k ==> order[j] in data && data[order[j]] == Entries(images, folders[order[j]]))
    && (forall f :: f in data ==> exists j :: 0 <= j < k && order[j] == f)
  }

  lemma FillNext(data: Listing, images: map<string, string>, folders: map<string, seq<string>>, order: seq<string>, k: nat)
    requires KeysInOrder(order, folders) && k < |order| && Filled(data, images, folders, order, k)
    ensures Filled(data[order[k] := Entries(images, folders[order[k]])], images, folders, order, k + 1)
  {
    var data' := data[order[k] := Entries(images, folders[order[k]])];
    forall f | f in data' ensures exists j :: 0 <= j < k + 1 && order[j] == f {
      if f != order[k] {
        var j :| 0 <= j < k && order[j] == f;
      }
    }
  }

  lemma AllFilled(data: Listing, images: map<string, string>, folders: map<string, seq<string>>, order: seq<string>)
    requires KeysInOrder(order, folders) && Filled(data, images, folders, order, |order|)
    ensures data == map f | f in folders :: Entries(images, folders[f])
  {
    forall f | f in folders ensures f in data && data[f] == Entries(images, folders[f]) {
      var j :| 0 <= j < |order| && order[j] == f;
    }
  }

  method FillFolders(names: seq<string>, images: map<string, string>, folders: map<string, seq<string>>, order: seq<string>)
    returns (data: Listing, remaining: seq<string>)
    requires KeysInOrder(names, images) && KeysInOrder(order, folders)
    requires forall f, i :: f in folders && 0 <= i < |folders[f]| ==> folders[f][i] in images
    ensures remaining == Without(names, Filed(folders)) && NamesListed(data, folders)
    ensures FiledOnce(folders) ==> data == map f | f in folders :: Entries(images, folders[f])
  {
    data, remaining := map[], names;
    ghost var filed := {};
    NothingGone(names);
    for k := 0 to |order|
      invariant GoneAfter(folders, order, k, filed) && remaining == Without(names, filed)
      invariant NamesSoFar(data, folders, order, k)
      invariant FiledOnce(folders) ==> Filled(data, images, folders, order, k)
    {
      var filenames := folders[order[k]];
      NextGone(folders, order, k, filed);
      WithoutMore(names, filed, set n | n in filenames);
      var entries;
      entries, remaining := FillFolder(images, filenames, remaining);
      if FiledOnce(folders) {
        FillNext(data, images, folders, order, k);
      }
      NextNames(data, folders, order, k, entries);
      data := data[order[k] := entries];
      filed := filed + set n | n in filenames;
    }
    AllFiled(folders, order, filed);
    AllNamesListed(data, folders, order);
    if FiledOnce(folders) {
      AllFilled(data, images, folders, order);
    }
  }

  /** Writing what remains under `root` completes the listing. */
  lemma RootCompletes(names: seq<string>, images: map<string, string>, folders: map<string, seq<string>>, data: Listing)
    requires data == map f | f in folders :: Entries(images, folders[f])
    ensures var rest := Without(names, Filed(folders));
            ByFolder(names, images, folders) == if rest == [] then data else data["root" := Entries(images, rest)]
  {
  }

  method FormatImages(names: seq<string>, images: map<string, string>, folders: map<string, seq<string>>, order: seq<string>)
    returns (data: Listing)
    requires KeysInOrder(names, images) && KeysInOrder(order, folders)
    requires forall f, i :: f in folders && 0 <= i < |folders[f]| ==> folders[f][i] in images
    ensures FiledOnce(folders) ==> data == ByFolder(names, images, folders)
    ensures "root" !in folders ==> NamesListed(data, folders)
  {
    var remaining;
    data, remaining := FillFolders(names, images, folders, order);
    if FiledOnce(folders) {
      RootCompletes(names, images, folders, data);
    }
    if remaining != [] {
      data := data["root" := Entries(images, remaining)];
    }
  }

  /** `format(flatten)` of an encoder: `ByFolder`, and a partition of the images exactly if none was filed twice. */
  method Format(e: Encoder, flatten: bool) returns (data: Listing)
    requires e.Valid()
    ensures var folders := if flatten then map[] else e.folders;
            && (FiledOnce(folders) ==> data == ByFolder(e.names, e.images, folders))
            && ("root" !in folders ==> (Partition(data, e.images) <==> FiledOnce(folders)))
  {
    ghost var folders := if flatten then map[] else e.folders;
    data := FormatImages(e.names, e.images, if flatten then map[] else e.folders, if flatten then [] else e.folderNames);
    if "root" !in folders {
      if FiledOnce(folders) { ByFolderIsPartition(e.names, e.images, folders); }
      if Partition(data, e.images) { PartitionNeedsFiledOnce(data, e.images, folders); }
    }
  }
}
