/**
 The artifact directory (`src/artifact.rs`): the scan that keeps its totals within limits, and the
 publication of one new file in it.
 */
module ArtifactStore {
  import opened Basics

  // ----- the file system -----

  type Bytes = seq<u8>
  type Path = seq<string>

  /** Links, reparse points and devices are special. */
  datatype Node = File(content: Bytes) | Directory | Special

  type Fs = map<Path, Node>

  function Parent(p: Path): Path
    requires p != []
  {
    p[..|p| - 1]
  }

  /** Whatever has a path lies in a directory. */
  predicate IsTree(fs: Fs) {
    forall p :: p in fs && p != [] ==> Parent(p) in fs && fs[Parent(p)] == Directory
  }

  predicate Below(dir: Path, p: Path) { dir < p }

  function Descendants(fs: Fs, root: Path): set<Path> {
    set p | p in fs && Below(root, p)
  }

  function Children(fs: Fs, dir: Path): set<Path> {
    set p | p in fs && p != [] && Parent(p) == dir
  }

  function UnderAny(fs: Fs, dirs: set<Path>): set<Path> {
    set p, d | p in fs && d in dirs && Below(d, p) :: p
  }

  // ----- totals -----

  datatype Limits = Limits(files: u64, bytes: u64, entries: u64)

  function FilesIn(fs: Fs, s: set<Path>): set<Path> {
    set p | p in s && p in fs && fs[p].File?
  }

  function Size(fs: Fs, p: Path): nat {
    if p in fs && fs[p].File? then |fs[p].content| else 0
  }

  ghost function TotalBytes(fs: Fs, s: set<Path>): nat
    decreases s
  {
    if s == {} then 0 else Size(fs, Any(s)) + TotalBytes(fs, s - {Any(s)})
  }

  ghost function Any<T>(s: set<T>): (p: T)
    requires s != {}
    ensures p in s
  {
    var p :| p in s; p
  }

  lemma {:induction false} TotalWithout(fs: Fs, s: set<Path>, p: Path)
    requires p in s
    ensures TotalBytes(fs, s) == Size(fs, p) + TotalBytes(fs, s - {p})
    decreases s
  {
    var q := Any(s);
    if p != q {
      TotalWithout(fs, s - {q}, p);
      TotalWithout(fs, s - {p}, q);
      assert s - {q} - {p} == s - {p} - {q};
    }
  }

  lemma {:induction false} TotalOfPart(fs: Fs, part: set<Path>, s: set<Path>)
    requires part <= s
    ensures TotalBytes(fs, part) <= TotalBytes(fs, s)
    decreases s - part
  {
    if part != s {
      assert s - part != {} by { assert part + (s - part) == s; }
      var p := Any(s - part);
      TotalWithout(fs, part + {p}, p);
      assert part + {p} - {p} == part;
      TotalOfPart(fs, part + {p}, s);
    }
  }

  lemma CardOfPart<T>(part: set<T>, s: set<T>)
    requires part <= s
    ensures |part| <= |s|
  {
    assert s == part + (s - part);
  }

  type NameRule = string -> bool

  predicate AllPlain(fs: Fs, s: set<Path>, validName: NameRule) {
    forall p :: p in s ==> p in fs && p != [] && !fs[p].Special? && validName(p[|p| - 1])
  }

  /** The entries of `s` are plain and together within the limits. */
  ghost predicate Within(fs: Fs, s: set<Path>, limits: Limits, validName: NameRule) {
    && AllPlain(fs, s, validName)
    && |s| <= limits.entries && |FilesIn(fs, s)| <= limits.files && TotalBytes(fs, s) <= limits.bytes
  }

  lemma WithinPart(fs: Fs, part: set<Path>, s: set<Path>, limits: Limits, validName: NameRule)
    requires part <= s && Within(fs, s, limits, validName)
    ensures Within(fs, part, limits, validName)
  {
    CardOfPart(part, s);
    CardOfPart(FilesIn(fs, part), FilesIn(fs, s));
    TotalOfPart(fs, part, s);
  }

  // ----- the frontier of the scan -----

  /** No path of the frontier lies below another one. */
  predicate Antichain(s: set<Path>) {
    forall a, b :: a in s && b in s && a <= b ==> a == b
  }

  /** What has been counted, what is listed but not yet counted, and what lies below the frontier. */
  predicate Covers(fs: Fs, root: Path, counted: set<Path>, listed: set<Path>, pending: set<Path>) {
    && Descendants(fs, root) == counted + listed + UnderAny(fs, pending + listed)
    && counted !! listed && counted !! UnderAny(fs, pending + listed) && listed !! UnderAny(fs, pending + listed)
    && pending !! listed && Antichain(pending + listed)
  }

  lemma PrefixOfChild(x: Path, c: Path)
    requires c != []
    ensures x <= c && x != c ==> x <= Parent(c)
  {
    if x <= c && x != c {
      assert x == c[..|x|] == Parent(c)[..|x|];
    }
  }

  lemma ChildIsBelow(dir: Path, p: Path)
    requires p != [] && Parent(p) == dir
    ensures Below(dir, p) && |p| == |dir| + 1
  {}

  lemma BelowTransitive(a: Path, b: Path, c: Path)
    requires a <= b && Below(b, c)
    ensures Below(a, c)
  {}

  /** Whatever lies below a directory is one of its entries or lies below one of them. */
  lemma BelowThroughChild(fs: Fs, dir: Path, p: Path) returns (c: Path)
    requires IsTree(fs) && p in fs && Below(dir, p)
    ensures c in Children(fs, dir) && c <= p
  {
    c := p[..|dir| + 1];
    PrefixInTree(fs, p, |dir| + 1);
    assert Parent(c) == dir;
  }

  lemma {:induction false} PrefixInTree(fs: Fs, p: Path, n: nat)
    requires IsTree(fs) && p in fs && n <= |p|
    ensures p[..n] in fs
    decreases |p| - n
  {
    if n < |p| {
      PrefixInTree(fs, p, n + 1);
      assert Parent(p[..n + 1]) == p[..n];
    } else {
      assert p[..n] == p;
    }
  }

  /** Only directories have anything below them. */
  lemma OnlyDirectoriesHoldPaths(fs: Fs, p: Path, q: Path)
    requires IsTree(fs) && q in fs && Below(p, q)
    ensures p in fs && fs[p] == Directory
  {
    PrefixInTree(fs, q, |p| + 1);
    assert Parent(q[..|p| + 1]) == p;
  }

  lemma CoversStart(fs: Fs, root: Path)
    ensures Covers(fs, root, {}, {}, {root})
  {
    assert UnderAny(fs, {root} + {}) == Descendants(fs, root);
  }

  lemma UnderOpen(fs: Fs, pending: set<Path>, dir: Path)
    requires IsTree(fs) && dir in pending
    ensures UnderAny(fs, pending) == Children(fs, dir) + UnderAny(fs, (pending - {dir}) + Children(fs, dir))
  {
    var c, rest := Children(fs, dir), pending - {dir};
    forall p | p in UnderAny(fs, pending)
      ensures p in c + UnderAny(fs, rest + c)
    {
      var d :| d in pending && Below(d, p);
      if d == dir {
        var child := BelowThroughChild(fs, dir, p);
        assert child == p || Below(child, p);
      } else {
        assert d in rest;
      }
    }
    forall p | p in c + UnderAny(fs, rest + c)
      ensures p in UnderAny(fs, pending)
    {
      if p in c {
        ChildIsBelow(dir, p);
      } else {
        var d :| d in rest + c && Below(d, p);
        if d in c {
          ChildIsBelow(dir, d);
          BelowTransitive(dir, d, p);
        }
      }
    }
  }

  lemma AntichainOpen(fs: Fs, pending: set<Path>, dir: Path)
    requires Antichain(pending) && dir in pending
    ensures Antichain((pending - {dir}) + Children(fs, dir)) && pending - {dir} !! Children(fs, dir)
  {
    var c, rest := Children(fs, dir), pending - {dir};
    forall x | x in c ensures Below(dir, x) && |x| == |dir| + 1 { ChildIsBelow(dir, x); }
    forall a, b | a in rest + c && b in rest + c && a <= b
      ensures a == b
    {
      if b in c { PrefixOfChild(a, b); }
    }
  }

  /** Nothing of the frontier lies below the frontier. */
  lemma AntichainIsFlat(fs: Fs, s: set<Path>)
    requires Antichain(s)
    ensures s !! UnderAny(fs, s)
  {
    forall p, d | p in s && d in s ensures !Below(d, p) {
      assert d <= p ==> d == p;
    }
  }

  /** A directory is taken from the frontier and its entries are listed. */
  lemma CoversOpen(fs: Fs, root: Path, counted: set<Path>, pending: set<Path>, dir: Path)
    requires IsTree(fs) && Covers(fs, root, counted, {}, pending) && dir in pending
    ensures Covers(fs, root, counted, Children(fs, dir), pending - {dir})
  {
    assert pending + {} == pending;
    UnderOpen(fs, pending, dir);
    AntichainOpen(fs, pending, dir);
    AntichainIsFlat(fs, (pending - {dir}) + Children(fs, dir));
  }

  /** A listed entry is counted; a directory joins the frontier. */
  lemma CoversCount(fs: Fs, root: Path, counted: set<Path>, listed: set<Path>, pending: set<Path>, p: Path)
    requires IsTree(fs) && Covers(fs, root, counted, listed, pending) && p in listed && p in fs
    ensures fs[p] == Directory ==> Covers(fs, root, counted + {p}, listed - {p}, pending + {p})
    ensures fs[p] != Directory ==> Covers(fs, root, counted + {p}, listed - {p}, pending)
  {
    var all := pending + listed;
    if fs[p] == Directory {
      assert (pending + {p}) + (listed - {p}) == all;
    } else {
      var fewer := pending + (listed - {p});
      forall q | q in UnderAny(fs, all)
        ensures q in UnderAny(fs, fewer)
      {
        var d :| d in all && Below(d, q);
        OnlyDirectoriesHoldPaths(fs, d, q);
      }
      assert UnderAny(fs, all) == UnderAny(fs, fewer);
    }
  }

  lemma CoversEnd(fs: Fs, root: Path, counted: set<Path>)
    requires Covers(fs, root, counted, {}, {})
    ensures counted == Descendants(fs, root)
  {
    assert UnderAny(fs, {} + {}) == {};
  }

  // ----- the scan -----

  datatype Counts = Counts(entries: nat, files: nat, bytes: nat)

  ghost function CountsOf(fs: Fs, s: set<Path>): Counts {
    Counts(|s|, |FilesIn(fs, s)|, TotalBytes(fs, s))
  }

  predicate Positive(limits: Limits) {
    limits.files > 0 && limits.bytes > 0 && limits.entries > 0
  }

  lemma CountOne(fs: Fs, counted: set<Path>, p: Path)
    requires p !in counted && p in fs
    ensures CountsOf(fs, counted + {p}).entries == |counted| + 1
    ensures TotalBytes(fs, counted + {p}) == TotalBytes(fs, counted) + Size(fs, p)
    ensures |FilesIn(fs, counted + {p})| == |FilesIn(fs, counted)| + if fs[p].File? then 1 else 0
  {
    TotalWithout(fs, counted + {p}, p);
    assert counted + {p} - {p} == counted;
    if fs[p].File? {
      assert FilesIn(fs, counted + {p}) == FilesIn(fs, counted) + {p};
    } else {
      assert FilesIn(fs, counted + {p}) == FilesIn(fs, counted);
    }
  }

  function SetOf(s: seq<Path>): set<Path> { set p | p in s }

  predicate Distinct(s: seq<Path>) {
    forall i, j :: 0 <= i < j < |s| ==> s[i] != s[j]
  }

  /** What the scan knows: what it has counted, that it is within the limits, and what is left. */
  ghost predicate Scanning(fs: Fs, root: Path, limits: Limits, validName: NameRule,
                           counted: set<Path>, listed: set<Path>, directories: seq<Path>, counts: Counts)
  {
    && Covers(fs, root, counted, listed, SetOf(directories))
    && Distinct(directories)
    && counts == CountsOf(fs, counted) && Within(fs, counted, limits, validName)
  }

  /** One entry of a listing; the entry is rejected only if the whole tree has to be. */
  method CountEntry(fs: Fs, root: Path, limits: Limits, validName: NameRule, p: Path, counts: Counts,
                    ghost counted: set<Path>)
    returns (ok: bool, next: Counts)
    requires p in Descendants(fs, root) && p !in counted && counted <= Descendants(fs, root)
    requires counts == CountsOf(fs, counted) && Within(fs, counted, limits, validName)
    ensures ok ==> next == CountsOf(fs, counted + {p}) && Within(fs, counted + {p}, limits, validName)
    ensures !ok ==> !Within(fs, Descendants(fs, root), limits, validName)
  {
    CountOne(fs, counted, p);
    if Within(fs, Descendants(fs, root), limits, validName) {
      WithinPart(fs, counted + {p}, Descendants(fs, root), limits, validName);
    }
    next := counts;
    if !validName(p[|p| - 1]) {
      return false, next;
    }
    next := next.(entries := next.entries + 1);
    if next.entries > limits.entries {
      return false, next;
    }
    match fs[p] {
      case Special => return false, next;
      case Directory => return true, next;
      case File(content) =>
        next := next.(files := next.files + 1, bytes := next.bytes + |content|);
        return next.files <= limits.files && next.bytes <= limits.bytes, next;
    }
  }

  /**
   The worklist accepts a tree exactly when its totals are within the limits and all its entries are
   plain, in whatever order the directories are listed and however early it gives up.
   */
  method EnforceCeiling(fs: Fs, root: Path, limits: Limits, validName: NameRule) returns (ok: bool)
    requires IsTree(fs) && root in fs && fs[root] == Directory
    ensures ok <==>
              && limits.files != 0 && limits.bytes != 0 && limits.entries != 0
              && Within(fs, Descendants(fs, root), limits, validName)
  {
    if !Positive(limits) {
      return false;
    }
    var directories := [root];
    var counts := Counts(0, 0, 0);
    ghost var counted: set<Path> := {};
    ScanStart(fs, root, limits, validName);
    while directories != []
      invariant Scanning(fs, root, limits, validName, counted, {}, directories, counts)
      invariant counts.entries <= |Descendants(fs, root)|
      decreases |Descendants(fs, root)| - counts.entries, |directories|
    {
      ok, directories, counts, counted := ScanDirectory(fs, root, limits, validName, directories, counts, counted);
      if !ok {
        return false;
      }
    }
    ScanComplete(fs, root, limits, validName, counted, counts);
    return true;
  }

  lemma ScanStart(fs: Fs, root: Path, limits: Limits, validName: NameRule)
    ensures Scanning(fs, root, limits, validName, {}, {}, [root], Counts(0, 0, 0))
  {
    CoversStart(fs, root);
    assert SetOf([root]) == {root};
  }

  lemma ScanComplete(fs: Fs, root: Path, limits: Limits, validName: NameRule, counted: set<Path>, counts: Counts)
    requires Scanning(fs, root, limits, validName, counted, {}, [], counts)
    ensures Within(fs, Descendants(fs, root), limits, validName)
  {
    assert SetOf([]) == {};
    CoversEnd(fs, root, counted);
  }

  /** One round of the loop: the last directory is taken off the list and its entries are looked at. */
  method ScanDirectory(fs: Fs, root: Path, limits: Limits, validName: NameRule,
                       directories: seq<Path>, counts: Counts, ghost counted: set<Path>)
    returns (ok: bool, left: seq<Path>, total: Counts, ghost done: set<Path>)
    requires IsTree(fs) && directories != []
    requires Scanning(fs, root, limits, validName, counted, {}, directories, counts)
    ensures ok ==> Scanning(fs, root, limits, validName, done, {}, left, total)
    ensures ok ==> counts.entries <= total.entries <= |Descendants(fs, root)|
    ensures ok ==> counts.entries == total.entries ==> |left| < |directories|
    ensures !ok ==> !Within(fs, Descendants(fs, root), limits, validName)
  {
    var directory := directories[|directories| - 1];
    OpenDirectory(fs, root, limits, validName, counted, directories, counts);
    left, total, done := directories[..|directories| - 1], counts, counted;
    var listed := Children(fs, directory);
    while listed != {}
      invariant Scanning(fs, root, limits, validName, done, listed, left, total)
      invariant counts.entries <= total.entries && (counts.entries == total.entries ==> |left| < |directories|)
      decreases listed
    {
      var entry :| entry in listed;
      var next;
      ScanningFacts(fs, root, limits, validName, done, listed, left, total, entry);
      ok, next := CountEntry(fs, root, limits, validName, entry, total, done);
      if !ok {
        return;
      }
      CountStep(fs, root, limits, validName, done, listed, left, total, entry, next);
      total, done, listed := next, done + {entry}, listed - {entry};
      if fs[entry] == Directory {
        left := left + [entry];
      }
    }
    ok := true;
    ScanningEnd(fs, root, limits, validName, done, left, total);
  }

  lemma ScanningEnd(fs: Fs, root: Path, limits: Limits, validName: NameRule, counted: set<Path>,
                    directories: seq<Path>, counts: Counts)
    requires Scanning(fs, root, limits, validName, counted, {}, directories, counts)
    ensures counts.entries <= |Descendants(fs, root)|
  {
    CardOfPart(counted, Descendants(fs, root));
  }

  lemma ScanningFacts(fs: Fs, root: Path, limits: Limits, validName: NameRule, counted: set<Path>, listed: set<Path>,
                      directories: seq<Path>, counts: Counts, p: Path)
    requires p in listed && Scanning(fs, root, limits, validName, counted, listed, directories, counts)
    ensures p in Descendants(fs, root) && p !in counted && counted <= Descendants(fs, root)
    ensures counts == CountsOf(fs, counted) && Within(fs, counted, limits, validName)
  {}

  lemma OpenDirectory(fs: Fs, root: Path, limits: Limits, validName: NameRule,
                      counted: set<Path>, directories: seq<Path>, counts: Counts)
    requires IsTree(fs) && directories != [] && Scanning(fs, root, limits, validName, counted, {}, directories, counts)
    ensures var n := |directories| - 1;
            Scanning(fs, root, limits, validName, counted, Children(fs, directories[n]), directories[..n], counts)
  {
    var n := |directories| - 1;
    assert SetOf(directories[..n]) == SetOf(directories) - {directories[n]};
    CoversOpen(fs, root, counted, SetOf(directories), directories[n]);
  }

  lemma CountStep(fs: Fs, root: Path, limits: Limits, validName: NameRule, counted: set<Path>, listed: set<Path>,
                  directories: seq<Path>, counts: Counts, p: Path, next: Counts)
    requires IsTree(fs) && p in listed && p in fs
    requires Scanning(fs, root, limits, validName, counted, listed, directories, counts)
    requires next == CountsOf(fs, counted + {p}) && Within(fs, counted + {p}, limits, validName)
    ensures next.entries == counts.entries + 1
    ensures var more := if fs[p] == Directory then directories + [p] else directories;
            Scanning(fs, root, limits, validName, counted + {p}, listed - {p}, more, next)
  {
    CoversNext(fs, root, counted, listed, directories, p);
    if fs[p] == Directory { DistinctMore(directories, p); }
    ScanningOf(fs, root, limits, validName, counted + {p}, listed - {p},
               if fs[p] == Directory then directories + [p] else directories, next);
  }

  lemma DistinctMore(directories: seq<Path>, p: Path)
    requires Distinct(directories) && p !in SetOf(directories)
    ensures Distinct(directories + [p])
  {}

  lemma ScanningOf(fs: Fs, root: Path, limits: Limits, validName: NameRule, counted: set<Path>, listed: set<Path>,
                   directories: seq<Path>, counts: Counts)
    requires Covers(fs, root, counted, listed, SetOf(directories)) && Distinct(directories)
    requires counts == CountsOf(fs, counted) && Within(fs, counted, limits, validName)
    ensures Scanning(fs, root, limits, validName, counted, listed, directories, counts)
  {}

  lemma CoversNext(fs: Fs, root: Path, counted: set<Path>, listed: set<Path>, directories: seq<Path>, p: Path)
    requires IsTree(fs) && p in listed && p in fs && Covers(fs, root, counted, listed, SetOf(directories))
    ensures var more := if fs[p] == Directory then directories + [p] else directories;
            Covers(fs, root, counted + {p}, listed - {p}, SetOf(more))
    ensures p !in SetOf(directories)
  {
    CoversCount(fs, root, counted, listed, SetOf(directories), p);
    OneMoreDirectory(directories, p);
  }

  lemma OneMoreDirectory(directories: seq<Path>, p: Path)
    ensures SetOf(directories + [p]) == SetOf(directories) + {p}
    ensures p !in SetOf(directories) ==> p !in directories
  {}

  // ----- the bounded writer -----

  /** One call of `write`: how much of the buffer the file takes, and whether it takes any. */
  datatype Call = Call(buffer: Bytes, taken: nat, works: bool)

  function Saturated(n: nat): u64 { if n <= U64_MAX then n else U64_MAX }

  /** The largest u64 is no limit, because the sum that is compared with it saturates. */
  predicate Allows(maximum: u64, size: nat) { size <= maximum || maximum == U64_MAX }

  class LimitedWriter {
    var file: Bytes
    var written: u64
    const maximum: u64

    constructor (maximum: u64)
      ensures file == [] && written == 0 && this.maximum == maximum
    {
      file := [];
      written := 0;
      this.maximum := maximum;
    }

    method Write(call: Call) returns (r: Option<nat>)
      requires call.taken <= |call.buffer| && written == Saturated(|file|)
      modifies this
      ensures written == Saturated(|file|)
      ensures r == if call.works && Allows(maximum, |old(file)| + |call.buffer|) then Some(call.taken) else None
      ensures file == if r.Some? then old(file) + call.buffer[..call.taken] else old(file)
    {
      if SaturatingAdd(written, Saturated(|call.buffer|)) > maximum {
        return None;
      }
      if !call.works {
        return None;
      }
      file := file + call.buffer[..call.taken];
      written := SaturatingAdd(written, Saturated(call.taken));
      return Some(call.taken);
    }

    /** `write_all`: offers what is left until the file has taken everything, or something goes wrong. */
    method WriteAll(buffer: Bytes, device: Device) returns (ok: bool)
      requires written == Saturated(|file|)
      modifies this
      ensures written == Saturated(|file|)
      ensures ok <==> Takes(device, |old(file)|, |buffer|) && (buffer != [] ==> Allows(maximum, |old(file)| + |buffer|))
      ensures ok ==> file == old(file) + buffer
    {
      var rest := buffer;
      while rest != []
        invariant written == Saturated(|file|) && |file| + |rest| == |old(file)| + |buffer|
        invariant file + rest == old(file) + buffer
        invariant Takes(device, |file|, |rest|) <==> Takes(device, |old(file)|, |buffer|)
        invariant rest != buffer ==> Allows(maximum, |old(file)| + |buffer|)
        decreases |rest|
      {
        ghost var before := file;
        var answer := device(|file|, |rest|);
        var works := answer.Some? && 0 < answer.value <= |rest|;
        var r := Write(Call(rest, if works then answer.value else 0, works));
        if r == None {
          return false;
        }
        MoveOver(before, rest, r.value);
        rest := rest[r.value..];
      }
      return true;
    }
  }

  lemma MoveOver(file: Bytes, rest: Bytes, n: nat)
    requires n <= |rest|
    ensures (file + rest[..n]) + rest[n..] == file + rest
  {}

  /** How much of a buffer the file takes, given its length so far and that of the buffer. */
  type Device = (nat, nat) -> Option<nat>

  /** The file takes the whole buffer, bit by bit. */
  predicate Takes(device: Device, length: nat, more: nat)
    decreases more
  {
    more == 0 ||
    var answer := device(length, more);
    answer.Some? && 0 < answer.value <= more && Takes(device, length + answer.value, more - answer.value)
  }

  predicate TakesAll(device: Device, length: nat, pieces: seq<Bytes>)
    decreases |pieces|
  {
    pieces == [] || (Takes(device, length, |pieces[0]|) && TakesAll(device, length + |pieces[0]|, pieces[1..]))
  }

  /** Everything that is offered. */
  function Offered(pieces: seq<Bytes>): Bytes {
    if pieces == [] then [] else pieces[0] + Offered(pieces[1..])
  }

  // ----- publication -----

  class Store {
    var fs: Fs

    constructor (fs: Fs)
      ensures this.fs == fs
    {
      this.fs := fs;
    }
  }

  /** Removes its file unless it was told that the file has been published. */
  class TemporaryFileGuard {
    const path: Path
    var committed: bool

    constructor (path: Path)
      ensures this.path == path && !committed
    {
      this.path := path;
      committed := false;
    }

    method Drop(store: Store)
      modifies store
      ensures store.fs == if committed then old(store.fs) else old(store.fs) - {path}
    {
      if !committed {
        store.fs := store.fs - {path};
      }
    }
  }

  function FilesOf(fs: Fs): map<Path, Bytes> {
    map p | p in fs && fs[p].File? :: fs[p].content
  }

  /** The directories on the way to `dir` that are not there yet. */
  function Missing(fs: Fs, dir: Path): map<Path, Node> {
    map n | 0 <= n <= |dir| && dir[..n] !in fs :: dir[..n] := Directory
  }

  predicate DirectoriesTo(fs: Fs, dir: Path) {
    forall n :: 0 <= n <= |dir| && dir[..n] in fs ==> fs[dir[..n]] == Directory
  }

  lemma MissingKeepsTree(fs: Fs, dir: Path)
    requires IsTree(fs) && DirectoriesTo(fs, dir)
    ensures var more := fs + Missing(fs, dir);
            && IsTree(more) && FilesOf(more) == FilesOf(fs) && dir in more && more[dir] == Directory
            && forall p :: p in fs ==> more[p] == fs[p]
  {
    var more := fs + Missing(fs, dir);
    forall n | 0 <= n <= |dir|
      ensures dir[..n] in more && more[dir[..n]] == Directory
    {
      if dir[..n] !in fs { assert dir[..n] in Missing(fs, dir); }
    }
    forall p | p in more && p != []
      ensures Parent(p) in more && more[Parent(p)] == Directory
    {
      if p !in fs {
        var n :| 0 <= n <= |dir| && dir[..n] !in fs && p == dir[..n];
        assert Parent(p) == dir[..n - 1];
      }
    }
    assert dir[..|dir|] == dir;
    forall p | p in more
      ensures p in FilesOf(more) <==> p in FilesOf(fs)
    {
      if p !in fs { assert p in Missing(fs, dir); }
    }
  }

  /** A new file in a directory. */
  lemma NewFile(fs: Fs, p: Path, content: Bytes)
    requires IsTree(fs) && p != [] && p !in fs && Parent(p) in fs && fs[Parent(p)] == Directory
    ensures var more := fs[p := File(content)];
            && IsTree(more) && FilesOf(more) == FilesOf(fs)[p := content] && more - {p} == fs
  {
    var more := fs[p := File(content)];
    forall q | q in more && q != []
      ensures Parent(q) in more && more[Parent(q)] == Directory
    {
      if q != p { assert q in fs && Parent(q) in fs; }
    }
  }

  /** The totals of a tree with one more file, wherever in the tree that file lies. */
  lemma TotalsWithNew(fs: Fs, root: Path, p: Path, content: Bytes)
    requires p !in fs && Below(root, p)
    ensures var more := fs[p := File(content)]; var d := Descendants(fs, root);
            && Descendants(more, root) == d + {p} && |d + {p}| == |d| + 1
            && |FilesIn(more, d + {p})| == |FilesIn(fs, d)| + 1
            && TotalBytes(more, d + {p}) == TotalBytes(fs, d) + |content|
  {
    var more := fs[p := File(content)];
    var d := Descendants(fs, root);
    assert FilesIn(more, d + {p}) == FilesIn(fs, d) + {p};
    TotalWithout(more, d + {p}, p);
    assert d + {p} - {p} == d;
    SameTotal(more, fs, d);
  }

  lemma PlainWithNew(fs: Fs, d: set<Path>, p: Path, content: Bytes, validName: NameRule)
    requires p !in fs && p != [] && forall q :: q in d ==> q in fs
    ensures AllPlain(fs[p := File(content)], d + {p}, validName) <==> AllPlain(fs, d, validName) && validName(p[|p| - 1])
  {
    var more := fs[p := File(content)];
    if AllPlain(more, d + {p}, validName) {
      assert p in d + {p};
      forall q | q in d
        ensures q != [] && !fs[q].Special? && validName(q[|q| - 1])
      {
        assert q in d + {p} && more[q] == fs[q];
      }
    }
  }

  /** Renaming a file within its directory changes none of the totals. */
  lemma MovedIsWithin(fs: Fs, root: Path, from: Path, to: Path, content: Bytes, limits: Limits, validName: NameRule)
    requires from !in fs && to !in fs && Below(root, from) && Below(root, to) && validName(to[|to| - 1])
    requires Within(fs[from := File(content)], Descendants(fs[from := File(content)], root), limits, validName)
    ensures Within(fs[to := File(content)], Descendants(fs[to := File(content)], root), limits, validName)
  {
    TotalsWithNew(fs, root, from, content);
    TotalsWithNew(fs, root, to, content);
    PlainWithNew(fs, Descendants(fs, root), from, content, validName);
    PlainWithNew(fs, Descendants(fs, root), to, content, validName);
  }

  lemma {:induction false} SameTotal(a: Fs, b: Fs, s: set<Path>)
    requires forall p :: p in s ==> Size(a, p) == Size(b, p)
    ensures TotalBytes(a, s) == TotalBytes(b, s)
    decreases s
  {
    if s != {} { SameTotal(a, b, s - {Any(s)}); }
  }

  /** What may go wrong on the way, apart from what the arguments decide. */
  datatype Fault = NoFault | Hardening | SyncFails | MoveFails | LinkOnly

  datatype Result = Published | Refused

  datatype Job = Job(
    root: Path, relative: Path, maximum: u64, limits: Limits, validName: NameRule,
    temporary: string, pieces: seq<Bytes>, device: Device, fault: Fault)

  function Destination(job: Job): Path { job.root + job.relative }

  /** The complete file: everything that the caller has to write. */
  function Content(job: Job): Bytes { Offered(job.pieces) }

  /** The caller gets through with its writing; it stops at the first error. */
  predicate Writes(job: Job) {
    Allows(job.maximum, |Content(job)|) && TakesAll(job.device, 0, job.pieces)
  }

  /** The root is a directory, and the random name of the temporary file is a new one. */
  predicate Ready(fs: Fs, job: Job) {
    && IsTree(fs) && job.root in fs && fs[job.root] == Directory
    && (job.relative != [] ==> Parent(Destination(job)) + [job.temporary] !in fs && job.temporary != job.relative[|job.relative| - 1])
  }

  /** The tree just before the file gets its name, as the ceiling sees it. */
  function Prepared(fs: Fs, job: Job): Fs
    requires job.relative != []
  {
    var parent := Parent(Destination(job));
    (fs + Missing(fs, parent))[parent + [job.temporary] := File(Content(job))]
  }

  /** The arguments are in order, the caller gets through with its writing, and the totals allow the file. */
  ghost predicate Admissible(fs: Fs, job: Job) {
    && job.relative != [] && (forall i :: 0 <= i < |job.relative| ==> job.validName(job.relative[i]))
    && DirectoriesTo(fs, Parent(Destination(job))) && Destination(job) !in fs
    && Writes(job) && Positive(job.limits)
    && Within(Prepared(fs, job), Descendants(Prepared(fs, job), job.root), job.limits, job.validName)
  }

  /** When a file is published: nothing fails either. */
  ghost predicate Publishable(fs: Fs, job: Job) { Admissible(fs, job) && job.fault == NoFault }

  /** When a refused file stays behind: only the removal of the linked temporary file has failed. */
  ghost predicate LeftBehind(fs: Fs, job: Job) { Admissible(fs, job) && job.fault == LinkOnly }

  /** A caller that writes piece after piece, and gives up at the first error. */
  method RunWriter(pieces: seq<Bytes>, device: Device, maximum: u64) returns (ok: bool, content: Bytes)
    ensures ok <==> Allows(maximum, |Offered(pieces)|) && TakesAll(device, 0, pieces)
    ensures ok ==> content == Offered(pieces)
  {
    var writer := new LimitedWriter(maximum);
    var rest := pieces;
    while rest != []
      invariant writer.maximum == maximum && writer.written == Saturated(|writer.file|)
      invariant writer.file + Offered(rest) == Offered(pieces) && Allows(maximum, |writer.file|)
      invariant TakesAll(device, |writer.file|, rest) <==> TakesAll(device, 0, pieces)
      decreases |rest|
    {
      ghost var before := writer.file;
      ok := writer.WriteAll(rest[0], device);
      if !ok {
        assert |Offered(pieces)| == |before| + |rest[0]| + |Offered(rest[1..])|;
        return false, writer.file;
      }
      assert writer.file + Offered(rest[1..]) == before + Offered(rest);
      rest := rest[1..];
    }
    return true, writer.file;
  }

  /** `secure_write_new_in_with_limits`. */
  method SecureWriteNew(store: Store, job: Job) returns (r: Result)
    requires Ready(store.fs, job)
    modifies store
    ensures IsTree(store.fs) && forall p :: p in old(store.fs) ==> p in store.fs && store.fs[p] == old(store.fs)[p]
    ensures r == Published <==> Publishable(old(store.fs), job)
    ensures r == Published ==>
              && Allows(job.maximum, |Content(job)|)
              && FilesOf(store.fs) == FilesOf(old(store.fs))[Destination(job) := Content(job)]
              && Within(store.fs, Descendants(store.fs, job.root), job.limits, job.validName)
    ensures r == Refused ==>
              if LeftBehind(old(store.fs), job)
              then FilesOf(store.fs) == FilesOf(old(store.fs))[Destination(job) := Content(job)]
                && Within(store.fs, Descendants(store.fs, job.root), job.limits, job.validName)
              else FilesOf(store.fs) == FilesOf(old(store.fs))
  {
    if job.relative == [] || !forall i :: 0 <= i < |job.relative| ==> job.validName(job.relative[i]) {
      return Refused;
    }
    var destination := Destination(job);
    var parent := Parent(destination);
    if !DirectoriesTo(store.fs, parent) {
      return Refused;
    }
    MissingKeepsTree(store.fs, parent);
    NewNames(store.fs, job);
    store.fs := store.fs + Missing(store.fs, parent);
    if destination in store.fs {
      return Refused;
    }
    r := Publish(store, job, destination, parent + [job.temporary]);
    NewFile(old(store.fs) + Missing(old(store.fs), parent), destination, Content(job));
  }

  lemma NewNames(fs: Fs, job: Job)
    requires Ready(fs, job) && job.relative != []
    ensures var parent := Parent(Destination(job)); var temporary := parent + [job.temporary];
            && Parent(temporary) == parent && temporary != Destination(job) && temporary !in fs + Missing(fs, parent)
            && Below(job.root, temporary) && Below(job.root, Destination(job))
            && (Destination(job) in fs + Missing(fs, parent) <==> Destination(job) in fs)
            && Destination(job)[|Destination(job)| - 1] == job.relative[|job.relative| - 1]
  {
    var destination := Destination(job);
    var parent := Parent(destination);
    var temporary := parent + [job.temporary];
    assert temporary[|parent|] == job.temporary && destination[|parent|] == job.relative[|job.relative| - 1];
    assert job.root == destination[..|job.root|] == parent[..|job.root|] == temporary[..|job.root|];
  }

  lemma TemporaryMaps(fs: Fs, temporary: Path, destination: Path, content: Bytes)
    requires temporary !in fs && destination !in fs && temporary != destination
    ensures fs[temporary := File([])] - {temporary} == fs
    ensures fs[temporary := File([])][temporary := File(content)] == fs[temporary := File(content)]
    ensures fs[temporary := File(content)] - {temporary} == fs
    ensures fs[temporary := File(content)][destination := File(content)] - {temporary} == fs[destination := File(content)]
  {}

  /** Everything from the creation of the temporary file on. */
  method Publish(store: Store, job: Job, destination: Path, temporary: Path) returns (r: Result)
    requires IsTree(store.fs)
    requires job.root in store.fs && store.fs[job.root] == Directory
    requires destination != [] && temporary != [] && Parent(temporary) == Parent(destination)
    requires Parent(destination) in store.fs && store.fs[Parent(destination)] == Directory
    requires destination !in store.fs && temporary !in store.fs && temporary != destination
    requires Below(job.root, destination) && Below(job.root, temporary) && job.validName(destination[|destination| - 1])
    modifies store
    ensures r == Published <==>
              && Writes(job) && job.fault == NoFault && Positive(job.limits)
              && var before := old(store.fs)[temporary := File(Content(job))];
                 Within(before, Descendants(before, job.root), job.limits, job.validName)
    ensures r == Published ==>
              && store.fs == old(store.fs)[destination := File(Content(job))]
              && Within(store.fs, Descendants(store.fs, job.root), job.limits, job.validName)
    ensures r == Refused ==>
              var before := old(store.fs)[temporary := File(Content(job))];
              if job.fault == LinkOnly && Writes(job) && Positive(job.limits)
                 && Within(before, Descendants(before, job.root), job.limits, job.validName)
              then store.fs == old(store.fs)[destination := File(Content(job))]
                && Within(store.fs, Descendants(store.fs, job.root), job.limits, job.validName)
              else store.fs == old(store.fs)
  {
    ghost var fs := store.fs;
    store.fs := store.fs[temporary := File([])];
    var guard := new TemporaryFileGuard(temporary);
    TemporaryMaps(fs, temporary, destination, Content(job));
    if job.fault == Hardening {
      guard.Drop(store);
      return Refused;
    }
    var ok, content := RunWriter(job.pieces, job.device, job.maximum);
    store.fs := store.fs[temporary := File(content)];
    TemporaryMaps(fs, temporary, destination, content);
    if !ok || job.fault == SyncFails {
      guard.Drop(store);
      return Refused;
    }
    NewFile(fs, temporary, content);
    ok := EnforceCeiling(store.fs, job.root, job.limits, job.validName);
    if !ok || job.fault == MoveFails {
      guard.Drop(store);
      return Refused;
    }
    MovedIsWithin(fs, job.root, temporary, destination, content, job.limits, job.validName);
    store.fs := store.fs[destination := File(content)];
    if job.fault == LinkOnly {
      guard.Drop(store);
      return Refused;
    }
    store.fs := store.fs - {temporary};
    guard.committed := true;
    guard.Drop(store);
    return Published;
  }
}
