/** The remote file system and what the host's file utilities do to it. A file system is a
    map from paths to nodes; a path is the list of its names, the root being the empty list. */
module FileSystem {
  import opened Text
  import opened Base64

  type Path = seq<string>

  datatype Node = Dir | File(content: seq<byte>)

  type Fs = map<Path, Node>

  /** What a utility leaves behind: the file system and its exit status. */
  datatype Effect = Effect(fs: Fs, status: nat)

  // ---------------------------------------------------------------- path strings

  predicate Absolute(s: string) { s != "" && s[0] == '/' }

  /** A name that a directory can hold. */
  predicate ProperName(name: string) {
    name != "" && name != "." && name != ".." && '/' !in name
  }

  function Walk(parts: seq<string>, at: Path): Path {
    if parts == [] then at
    else if parts[0] == "" || parts[0] == "." then Walk(parts[1..], at)
    else if parts[0] == ".." then Walk(parts[1..], if at == [] then [] else at[..|at| - 1])
    else Walk(parts[1..], at + [parts[0]])
  }

  /** The path an absolute path string names. */
  function Resolve(s: string): Path { Walk(Split(s, '/'), []) }

  function StripSlashes(s: string): string {
    if s != "" && s[|s| - 1] == '/' then StripSlashes(s[..|s| - 1]) else s
  }

  /** `joinPath(dir, name)` of the file manager. */
  function JoinPath(dir: string, name: string): string {
    if dir == "/" then "/" + name else StripSlashes(dir) + "/" + name
  }

  // ---------------------------------------------------------------- trees

  predicate IsDir(fs: Fs, p: Path) { p in fs && fs[p].Dir? }

  predicate IsFile(fs: Fs, p: Path) { p in fs && fs[p].File? }

  function Parent(p: Path): Path
    requires p != []
  {
    p[..|p| - 1]
  }

  predicate HasParent(fs: Fs, p: Path) { p != [] && IsDir(fs, Parent(p)) }

  /** The root is a directory and everything else lies in a directory. */
  ghost predicate ValidFs(fs: Fs) {
    IsDir(fs, []) && forall p :: p in fs && p != [] ==> HasParent(fs, p)
  }

  /** `q` moved from the subtree of `s` to the subtree of `t`. */
  function Rebase(q: Path, s: Path, t: Path): (r: Path)
    requires s <= q
    ensures t <= r && r[|t|..] == q[|s|..]
  {
    t + q[|s|..]
  }

  lemma RebaseAppend(s: Path, t: Path, r: Path)
    ensures s <= s + r && Rebase(s + r, s, t) == t + r
  {}

  lemma RebaseBack(q: Path, s: Path, t: Path)
    requires s <= q
    ensures Rebase(Rebase(q, s, t), t, s) == q
  {}

  lemma RebaseParent(q: Path, s: Path, t: Path)
    requires s <= q && s != q
    ensures Rebase(q, s, t) != [] && s <= Parent(q)
    ensures Parent(Rebase(q, s, t)) == Rebase(Parent(q), s, t)
  {}

  lemma PrefixParent(p: Path, q: Path)
    requires q != []
    ensures p <= q <==> p == q || p <= Parent(q)
  {}

  lemma PrefixComparable(p: Path, q: Path, r: Path)
    requires p <= r && q <= r
    ensures p <= q || q <= p
  {
    if |p| <= |q| { assert p == q[..|p|]; } else { assert q == p[..|q|]; }
  }

  /** Every prefix of a present path is a directory, or the path itself. */
  lemma {:induction false} PrefixIsDir(fs: Fs, p: Path, q: Path)
    requires ValidFs(fs) && q in fs && p <= q && p != q
    ensures IsDir(fs, p)
    decreases |q|
  {
    if p != Parent(q) { PrefixIsDir(fs, p, Parent(q)); }
  }

  lemma NothingUnderAbsent(fs: Fs, p: Path, q: Path)
    requires ValidFs(fs) && p !in fs && p <= q
    ensures q !in fs
  {
    if q in fs { PrefixIsDir(fs, p, q); }
  }

  // ---------------------------------------------------------------- utilities

  function Prefixes(p: Path): (ps: set<Path>)
    ensures forall q {:trigger q in ps} :: q in ps <==> q <= p
  {
    var ps := set i | 0 <= i <= |p| :: p[..i];
    assert forall q | q <= p :: q == p[..|q|];
    ps
  }

  /** `mkdir -p`. */
  function Mkdir(fs: Fs, p: Path): Effect {
    if exists i :: 0 <= i <= |p| && IsFile(fs, p[..i]) then Effect(fs, 1)
    else Effect((map q | q in Prefixes(p) :: Dir) + fs, 0)
  }

  /** `touch`. */
  function Touch(fs: Fs, p: Path): Effect {
    if p in fs then Effect(fs, 0)
    else if HasParent(fs, p) then Effect(fs[p := File([])], 0)
    else Effect(fs, 1)
  }

  /** `rm -rf`; the root is refused. */
  function Rm(fs: Fs, p: Path): Effect {
    if p == [] then Effect(fs, 1) else Effect(Without(fs, p), 0)
  }

  /** Where `mv` and `cp` put `s` when told `d`: inside `d` if that is a directory. */
  function Landing(fs: Fs, s: Path, d: Path): Path
    requires s != []
  {
    if IsDir(fs, d) then d + [s[|s| - 1]] else d
  }

  /** The subtree of `s`, rebased to `t`. */
  function Image(fs: Fs, s: Path, t: Path): (m: Fs)
    ensures forall r {:trigger r in m} :: r in m <==> t <= r && Rebase(r, t, s) in fs
    ensures forall r {:trigger m[r]} :: r in m ==> m[r] == fs[Rebase(r, t, s)]
  {
    var keys := set q | q in fs && s <= q :: Rebase(q, s, t);
    assert forall r :: r in keys ==> t <= r && Rebase(r, t, s) in fs by {
      forall q | q in fs && s <= q ensures Rebase(Rebase(q, s, t), t, s) == q { RebaseBack(q, s, t); }
    }
    assert forall r :: t <= r && Rebase(r, t, s) in fs ==> r in keys by {
      forall r | t <= r && Rebase(r, t, s) in fs ensures r in keys { RebaseBack(r, t, s); }
    }
    map r | r in keys :: fs[Rebase(r, t, s)]
  }

  function Without(fs: Fs, p: Path): (rest: Fs)
    ensures forall q {:trigger q in rest} :: q in rest <==> q in fs && !(p <= q)
    ensures forall q {:trigger rest[q]} :: q in rest ==> rest[q] == fs[q]
  {
    map q | q in fs && !(p <= q) :: fs[q]
  }

  function Relocate(fs: Fs, s: Path, t: Path): Fs { Without(fs, s) + Image(fs, s, t) }

  /** `mv -n`; `skipped` is the status the host's version reports when it refuses to
      overwrite. */
  function Mv(fs: Fs, s: Path, d: Path, skipped: nat): Effect {
    if s == [] || s !in fs then Effect(fs, 1)
    else
      var t := Landing(fs, s, d);
      if t in fs then Effect(fs, skipped)
      else if s <= t || !HasParent(fs, t) then Effect(fs, 1)
      else Effect(Relocate(fs, s, t), 0)
  }

  /** Some file stands where a directory would have to be. */
  predicate Blocked(fs: Fs, t: Path, r: Path) {
    exists i :: 0 <= i <= |r| && t <= r[..i] && IsFile(fs, r[..i])
  }

  /** A recursive copy that never overwrites: directories merge, files are only added. */
  function Merge(fs: Fs, s: Path, t: Path): Fs {
    (map r | r in Image(fs, s, t) && !Blocked(fs, t, r) :: Image(fs, s, t)[r]) + fs
  }

  predicate Overlap(fs: Fs, s: Path, t: Path) {
    exists q :: q in fs && s <= q && Rebase(q, s, t) in fs && !(fs[q].Dir? && fs[Rebase(q, s, t)].Dir?)
  }

  /** `cp -a -n`. */
  function Cp(fs: Fs, s: Path, d: Path, skipped: nat): Effect {
    if s == [] || s !in fs then Effect(fs, 1)
    else
      var t := Landing(fs, s, d);
      if s <= t && fs[s].Dir? then Effect(fs, 1)
      else if t in fs && fs[s].File? then Effect(fs, skipped)
      else if IsFile(fs, t) || (t !in fs && !HasParent(fs, t)) then Effect(fs, 1)
      else Effect(Merge(fs, s, t), if Overlap(fs, s, t) then skipped else 0)
  }

  predicate Writable(fs: Fs, p: Path) { HasParent(fs, p) && !IsDir(fs, p) }

  /** A command's output redirected with `>`: truncates or creates the file. */
  function Redirect(fs: Fs, p: Path, output: seq<byte>): Effect {
    if Writable(fs, p) then Effect(fs[p := File(output)], 0) else Effect(fs, 2)
  }

  // ---------------------------------------------------------------- capability operations

  /** The calls of the capability contract that change files, with their path strings. */
  datatype Op =
    | MakeDir(path: string)
    | CreateFile(path: string)
    | MovePath(from: string, to: string)
    | CopyPath(from: string, to: string)
    | RemovePath(path: string)
    | WriteFile(path: string, contents: seq<byte>)

  function Perform(op: Op, fs: Fs, skipped: nat): Effect {
    match op
    case MakeDir(p) => Mkdir(fs, Resolve(p))
    case CreateFile(p) => Touch(fs, Resolve(p))
    case MovePath(a, b) => Mv(fs, Resolve(a), Resolve(b), skipped)
    case CopyPath(a, b) => Cp(fs, Resolve(a), Resolve(b), skipped)
    case RemovePath(p) => Rm(fs, Resolve(p))
    case WriteFile(p, contents) => Redirect(fs, Resolve(p), contents)
  }

  /** The paths an operation may change, as its arguments name them. */
  predicate Names(op: Op, fs: Fs, q: Path) {
    match op
    case MakeDir(p) => q <= Resolve(p)
    case CreateFile(p) => q == Resolve(p)
    case MovePath(a, b) => Resolve(a) != [] && (Resolve(a) <= q || Landing(fs, Resolve(a), Resolve(b)) <= q)
    case CopyPath(a, b) => Resolve(a) != [] && Landing(fs, Resolve(a), Resolve(b)) <= q
    case RemovePath(p) => Resolve(p) <= q
    case WriteFile(p, _) => q == Resolve(p)
  }

  // ---------------------------------------------------------------- what the utilities mean

  /** Only paths at or below one of the roots differ. */
  ghost predicate SameOutside(fs: Fs, fs': Fs, roots: set<Path>) {
    forall q :: Outside(q, roots) ==> SameAt(fs, fs', q)
  }

  ghost predicate Outside(q: Path, roots: set<Path>) { forall r :: r in roots ==> !(r <= q) }

  ghost predicate SameAt(fs: Fs, fs': Fs, q: Path) {
    (q in fs <==> q in fs') && (q in fs ==> fs[q] == fs'[q])
  }

  /** The tree at `t` in `fs'` is the tree that `fs` had at `s`. */
  ghost predicate SameTree(fs: Fs, s: Path, fs': Fs, t: Path) {
    forall r: Path :: (s + r in fs <==> t + r in fs') && (s + r in fs ==> fs[s + r] == fs'[t + r])
  }

  lemma RelocateMeaning(fs: Fs, s: Path, t: Path)
    requires ValidFs(fs) && s in fs && t !in fs && !(s <= t)
    ensures SameTree(fs, s, Relocate(fs, s, t), t)
    ensures SameOutside(fs, Relocate(fs, s, t), {s, t})
    ensures forall q :: s <= q ==> q !in Relocate(fs, s, t)
  {
    var fs' := Relocate(fs, s, t);
    forall r: Path
      ensures (s + r in fs <==> t + r in fs') && (s + r in fs ==> fs[s + r] == fs'[t + r])
    {
      RebaseAppend(s, t, r);
      RebaseAppend(t, s, r);
      NothingUnderAbsent(fs, t, t + r);
    }
    forall q | s <= q ensures q !in fs' {
      if q in fs' {
        PrefixComparable(s, t, q);
        NothingUnderAbsent(fs, t, s);
      }
    }
    forall q | Outside(q, {s, t})
      ensures SameAt(fs, fs', q)
    {
      assert !(s <= q) && !(t <= q);
    }
  }

  lemma RelocateParent(fs: Fs, s: Path, t: Path, p: Path)
    requires ValidFs(fs) && s in fs && s != [] && t !in fs && !(s <= t) && HasParent(fs, t)
    requires p in Relocate(fs, s, t) && p != []
    ensures HasParent(Relocate(fs, s, t), p)
  {
    if p == t {
      KeptDir(fs, s, t, t);
    } else if t <= p {
      NothingUnderAbsent(fs, t, p);
      MovedDir(fs, s, t, p);
    } else {
      KeptDir(fs, s, t, p);
    }
  }

  lemma KeptDir(fs: Fs, s: Path, t: Path, p: Path)
    requires HasParent(fs, p) && !(s <= p) && (p == t || !(t <= p))
    ensures HasParent(Relocate(fs, s, t), p)
  {
    PrefixParent(s, p);
    PrefixParent(t, p);
    assert !(t <= Parent(p)) && Parent(p) in Without(fs, s);
  }

  lemma MovedDir(fs: Fs, s: Path, t: Path, p: Path)
    requires ValidFs(fs) && t <= p && t != p && Rebase(p, t, s) in fs
    ensures HasParent(Relocate(fs, s, t), p)
  {
    RebaseParent(p, t, s);
    var q := Rebase(p, t, s);
    assert q != [] && HasParent(fs, q);
    assert Parent(p) in Image(fs, s, t);
  }

  lemma RelocateValid(fs: Fs, s: Path, t: Path)
    requires ValidFs(fs) && s in fs && s != [] && t !in fs && !(s <= t) && HasParent(fs, t)
    ensures ValidFs(Relocate(fs, s, t))
  {
    forall p | p in Relocate(fs, s, t) && p != [] ensures HasParent(Relocate(fs, s, t), p) {
      RelocateParent(fs, s, t, p);
    }
  }

  lemma NotBlocked(fs: Fs, t: Path, r: Path)
    requires ValidFs(fs) && t !in fs
    ensures !Blocked(fs, t, r)
  {
    forall i | 0 <= i <= |r| && t <= r[..i] ensures r[..i] !in fs { NothingUnderAbsent(fs, t, r[..i]); }
  }

  lemma MergeMeaning(fs: Fs, s: Path, t: Path)
    requires ValidFs(fs)
    ensures Extends(fs, Merge(fs, s, t)) && SameOutside(fs, Merge(fs, s, t), {t})
    ensures t !in fs ==> SameTree(fs, s, Merge(fs, s, t), t)
  {
    var fs' := Merge(fs, s, t);
    forall q | Outside(q, {t}) ensures SameAt(fs, fs', q) {
      assert !(t <= q);
    }
    if t !in fs {
      forall r: Path
        ensures (s + r in fs <==> t + r in fs') && (s + r in fs ==> fs[s + r] == fs'[t + r])
      {
        RebaseAppend(t, s, r);
        NothingUnderAbsent(fs, t, t + r);
        NotBlocked(fs, t, t + r);
      }
    }
  }

  lemma BlockedBelow(fs: Fs, t: Path, p: Path)
    requires p != [] && !Blocked(fs, t, p) && t <= Parent(p)
    ensures !Blocked(fs, t, Parent(p)) && !IsFile(fs, Parent(p))
  {
    assert Parent(p) == p[..|p| - 1];
    forall i | 0 <= i <= |Parent(p)| && t <= Parent(p)[..i] ensures !IsFile(fs, Parent(p)[..i]) {
      assert Parent(p)[..i] == p[..i];
    }
  }

  lemma MergeParent(fs: Fs, s: Path, t: Path, p: Path)
    requires ValidFs(fs) && (t in fs || HasParent(fs, t))
    requires p in Merge(fs, s, t) && p != []
    ensures HasParent(Merge(fs, s, t), p)
  {
    if p in fs {
      assert HasParent(fs, p);
    } else if p != t {
      AddedParent(fs, s, t, p);
    }
  }

  lemma AddedParent(fs: Fs, s: Path, t: Path, p: Path)
    requires ValidFs(fs) && t <= p && p != t
    requires p in Image(fs, s, t) && !Blocked(fs, t, p)
    ensures HasParent(Merge(fs, s, t), p)
  {
    var image := Image(fs, s, t);
    RebaseParent(p, t, s);
    assert HasParent(fs, Rebase(p, t, s));
    assert Parent(p) in image && image[Parent(p)].Dir?;
    BlockedBelow(fs, t, p);
  }

  // ---------------------------------------------------------------- laws of the operations

  /** Everything present stays present and unchanged. */
  ghost predicate Extends(fs: Fs, fs': Fs) { forall q :: q in fs ==> q in fs' && fs'[q] == fs[q] }

  lemma MvValid(fs: Fs, s: Path, d: Path, skipped: nat)
    requires ValidFs(fs)
    ensures ValidFs(Mv(fs, s, d, skipped).fs)
  {
    if Mv(fs, s, d, skipped).fs != fs { RelocateValid(fs, s, Landing(fs, s, d)); }
  }

  lemma CpValid(fs: Fs, s: Path, d: Path, skipped: nat)
    requires ValidFs(fs)
    ensures ValidFs(Cp(fs, s, d, skipped).fs)
  {
    var fs' := Cp(fs, s, d, skipped).fs;
    if fs' != fs {
      forall p | p in fs' && p != [] ensures HasParent(fs', p) { MergeParent(fs, s, Landing(fs, s, d), p); }
    }
  }

  lemma PerformValid(op: Op, fs: Fs, skipped: nat)
    requires ValidFs(fs)
    ensures ValidFs(Perform(op, fs, skipped).fs)
  {
    match op {
      case MovePath(a, b) => MvValid(fs, Resolve(a), Resolve(b), skipped);
      case CopyPath(a, b) => CpValid(fs, Resolve(a), Resolve(b), skipped);
      case RemovePath(p) => if Resolve(p) != [] { RmMeaning(fs, Resolve(p)); }
      case MakeDir(p) =>
        forall q | q in Mkdir(fs, Resolve(p)).fs && q != [] ensures HasParent(Mkdir(fs, Resolve(p)).fs, q) {
          MkdirParent(fs, Resolve(p), q);
        }
      case CreateFile(p) => FileAdded(fs, Resolve(p), []);
      case WriteFile(p, contents) => FileAdded(fs, Resolve(p), contents);
    }
  }

  lemma FileAdded(fs: Fs, p: Path, contents: seq<byte>)
    requires ValidFs(fs)
    ensures Writable(fs, p) ==> ValidFs(fs[p := File(contents)])
  {
    if Writable(fs, p) {
      var fs' := fs[p := File(contents)];
      forall q | q in fs' && q != [] ensures HasParent(fs', q) { assert HasParent(fs, q); }
    }
  }

  lemma MkdirParent(fs: Fs, p: Path, q: Path)
    requires ValidFs(fs) && q in Mkdir(fs, p).fs && q != []
    ensures HasParent(Mkdir(fs, p).fs, q)
  {
    if q in fs {
      assert HasParent(fs, q);
    } else {
      assert q == p[..|q|] && Parent(q) == p[..|q| - 1];
      assert !IsFile(fs, p[..|q| - 1]);
    }
  }

  /** The source exists, and where it would land is free, in a directory, and not inside it. */
  ghost predicate LandsFree(fs: Fs, s: Path, d: Path) {
    s != [] && s in fs
    && var t := Landing(fs, s, d); t !in fs && !(s <= t) && HasParent(fs, t)
  }

  /** When `mv -n` goes ahead, and what it then does; otherwise nothing changes. */
  lemma MvMeaning(fs: Fs, s: Path, d: Path, skipped: nat)
    requires ValidFs(fs)
    ensures !LandsFree(fs, s, d) ==> Mv(fs, s, d, skipped).fs == fs
    ensures LandsFree(fs, s, d) ==>
              var t, fs' := Landing(fs, s, d), Mv(fs, s, d, skipped).fs;
              && Mv(fs, s, d, skipped).status == 0
              && SameTree(fs, s, fs', t)
              && (forall q :: s <= q ==> q !in fs')
              && SameOutside(fs, fs', {s, t})
  {
    if LandsFree(fs, s, d) { RelocateMeaning(fs, s, Landing(fs, s, d)); }
  }

  /** `cp -a -n` never overwrites; when it makes a fresh copy of a tree or of a file. */
  lemma CpMeaning(fs: Fs, s: Path, d: Path, skipped: nat)
    requires ValidFs(fs)
    ensures Extends(fs, Cp(fs, s, d, skipped).fs)
    ensures s != [] ==> SameOutside(fs, Cp(fs, s, d, skipped).fs, {Landing(fs, s, d)})
    ensures LandsFree(fs, s, d) ==>
              && Cp(fs, s, d, skipped).status == 0
              && SameTree(fs, s, Cp(fs, s, d, skipped).fs, Landing(fs, s, d))
  {
    if s != [] && s in fs {
      var t := Landing(fs, s, d);
      MergeMeaning(fs, s, t);
      if LandsFree(fs, s, d) {
        forall q | q in fs && s <= q ensures Rebase(q, s, t) !in fs {
          NothingUnderAbsent(fs, t, Rebase(q, s, t));
        }
      }
    }
  }

  /** `mkdir -p` succeeds if and only if no file stands in the way, and then the path and all
      its ancestors are directories; either way nothing that exists changes. */
  lemma MkdirMeaning(fs: Fs, p: Path)
    requires ValidFs(fs)
    ensures var r := Mkdir(fs, p);
            && (r.status == 0 <==> forall q :: q <= p ==> !IsFile(fs, q))
            && (r.status == 0 ==> forall q :: q <= p ==> IsDir(r.fs, q))
            && (r.status != 0 ==> r.fs == fs)
            && Extends(fs, r.fs) && (forall q :: !(q <= p) ==> SameAt(fs, r.fs, q))
  {
    assert forall q | q <= p :: q == p[..|q|];
    assert forall i | 0 <= i <= |p| :: p[..i] <= p;
  }

  /** `touch` makes an empty file where nothing was, and changes no content ever. */
  lemma TouchMeaning(fs: Fs, p: Path)
    requires ValidFs(fs)
    ensures var r := Touch(fs, p);
            && (r.status == 0 <==> p in fs || HasParent(fs, p))
            && (r.status == 0 ==> p in r.fs && (p !in fs ==> r.fs[p] == File([])))
            && (r.status != 0 ==> r.fs == fs)
            && Extends(fs, r.fs) && (forall q :: q != p ==> SameAt(fs, r.fs, q))
  {}

  /** `rm -rf` leaves nothing at or below its operand, whether anything was there or not, and
      everything else as it was. */
  lemma RmMeaning(fs: Fs, p: Path)
    requires ValidFs(fs) && p != []
    ensures var r := Rm(fs, p);
            && r.status == 0 && ValidFs(r.fs)
            && (forall q :: p <= q ==> q !in r.fs)
            && (forall q :: !(p <= q) ==> SameAt(fs, r.fs, q))
            && SameOutside(fs, r.fs, {p})
  {
    var fs' := Rm(fs, p).fs;
    forall q | q in fs' && q != [] ensures HasParent(fs', q) {
      PrefixParent(p, q);
      assert HasParent(fs, q);
    }
    forall q | Outside(q, {p}) ensures SameAt(fs, fs', q) { assert !(p <= q); }
  }

  lemma RootsOutside(q: Path, s: Path, t: Path)
    requires !(s <= q) && !(t <= q)
    ensures Outside(q, {s, t}) && Outside(q, {t})
  {}

  /** No operation changes a path that its arguments do not name. */
  lemma PerformFrame(op: Op, fs: Fs, skipped: nat, q: Path)
    requires ValidFs(fs) && !Names(op, fs, q)
    ensures SameAt(fs, Perform(op, fs, skipped).fs, q)
  {
    match op
    case MovePath(a, b) =>
      MvMeaning(fs, Resolve(a), Resolve(b), skipped);
      if Resolve(a) != [] { RootsOutside(q, Resolve(a), Landing(fs, Resolve(a), Resolve(b))); }
    case CopyPath(a, b) =>
      CpMeaning(fs, Resolve(a), Resolve(b), skipped);
      if Resolve(a) != [] {
        var t := Landing(fs, Resolve(a), Resolve(b));
        RootsOutside(q, t, t);
      }
    case MakeDir(p) =>
    case RemovePath(p) =>
    case CreateFile(p) =>
    case WriteFile(p, _) =>
  }

  // ---------------------------------------------------------------- conservation of contents

  /** `m` leads every file of `fs` to a file of `fs'` with the same content, no two to one. */
  ghost predicate Carries(m: map<Path, Path>, fs: Fs, fs': Fs) {
    && (forall p :: p in m <==> IsFile(fs, p))
    && (forall p :: p in m ==> IsFile(fs', m[p]) && fs'[m[p]] == fs[p])
    && (forall p, q :: p in m && q in m && m[p] == m[q] ==> p == q)
  }

  /** No file content of `fs` has disappeared in `fs'`. */
  ghost predicate Conserved(fs: Fs, fs': Fs) { exists m :: Carries(m, fs, fs') }

  lemma ConservedChain(fs0: Fs, fs1: Fs, fs2: Fs)
    requires Conserved(fs0, fs1) && Conserved(fs1, fs2)
    ensures Conserved(fs0, fs2)
  {
    var m :| Carries(m, fs0, fs1);
    var n :| Carries(n, fs1, fs2);
    var both := map p | p in m :: n[m[p]];
    assert Carries(both, fs0, fs2);
  }

  lemma ExtendsConserves(fs: Fs, fs': Fs)
    requires Extends(fs, fs')
    ensures Conserved(fs, fs')
  {
    var m := map p | p in fs && fs[p].File? :: p;
    assert Carries(m, fs, fs');
  }

  /** Where a path of the tree `s` goes when that tree moves to `t`; others stay. */
  function Follow(q: Path, s: Path, t: Path): Path {
    if s <= q then Rebase(q, s, t) else q
  }

  lemma FollowBack(q: Path, s: Path, t: Path)
    requires !(t <= q)
    ensures Follow(Follow(q, s, t), t, s) == q
  {
    if s <= q { RebaseBack(q, s, t); }
  }

  lemma RelocateAt(fs: Fs, s: Path, t: Path, q: Path)
    requires ValidFs(fs) && s in fs && t !in fs && !(s <= t)
    requires q in fs
    ensures !(t <= q)
    ensures var r := Follow(q, s, t); r in Relocate(fs, s, t) && Relocate(fs, s, t)[r] == fs[q]
  {
    NothingUnderAbsent'(fs, t, q);
    if s <= q { RebaseBack(q, s, t); }
  }

  lemma RelocateFrom(fs: Fs, s: Path, t: Path, r: Path)
    requires ValidFs(fs) && s in fs && t !in fs && !(s <= t)
    requires r in Relocate(fs, s, t)
    ensures !(s <= r)
    ensures var q := Follow(r, t, s); q in fs && Relocate(fs, s, t)[r] == fs[q]
  {
    RelocateMeaning(fs, s, t);
    if t <= r { NothingUnderAbsent(fs, t, r); }
  }

  lemma RelocateConserves(fs: Fs, s: Path, t: Path)
    requires ValidFs(fs) && s in fs && t !in fs && !(s <= t)
    ensures Conserved(fs, Relocate(fs, s, t)) && Conserved(Relocate(fs, s, t), fs)
  {
    var fs' := Relocate(fs, s, t);
    var there := map p | p in fs && fs[p].File? :: Follow(p, s, t);
    forall p | p in there
      ensures IsFile(fs', there[p]) && fs'[there[p]] == fs[p] && Follow(there[p], t, s) == p
    {
      RelocateAt(fs, s, t, p);
      FollowBack(p, s, t);
    }
    assert Carries(there, fs, fs');
    var back := map p | p in fs' && fs'[p].File? :: Follow(p, t, s);
    forall p | p in back
      ensures IsFile(fs, back[p]) && fs[back[p]] == fs'[p] && Follow(back[p], s, t) == p
    {
      RelocateFrom(fs, s, t, p);
      FollowBack(p, t, s);
    }
    assert Carries(back, fs', fs);
  }

  lemma NothingUnderAbsent'(fs: Fs, p: Path, q: Path)
    requires ValidFs(fs) && p !in fs && q in fs
    ensures !(p <= q)
  {
    if p <= q { NothingUnderAbsent(fs, p, q); }
  }

  /** Whatever the arguments, creating, copying and making directories only add, and a move
      neither loses nor duplicates content. */
  lemma PerformConserves(op: Op, fs: Fs, skipped: nat)
    requires ValidFs(fs)
    ensures op.MakeDir? || op.CreateFile? || op.CopyPath? ==> Extends(fs, Perform(op, fs, skipped).fs)
    ensures op.MovePath? ==> Conserved(Perform(op, fs, skipped).fs, fs)
    ensures !op.RemovePath? && !op.WriteFile? ==> Conserved(fs, Perform(op, fs, skipped).fs)
  {
    var fs' := Perform(op, fs, skipped).fs;
    if op.MovePath? {
      MvMeaning(fs, Resolve(op.from), Resolve(op.to), skipped);
      if LandsFree(fs, Resolve(op.from), Resolve(op.to)) {
        RelocateConserves(fs, Resolve(op.from), Landing(fs, Resolve(op.from), Resolve(op.to)));
      } else {
        ExtendsConserves(fs, fs);
      }
    } else if !op.RemovePath? && !op.WriteFile? {
      if op.CopyPath? { CpMeaning(fs, Resolve(op.from), Resolve(op.to), skipped); }
      ExtendsConserves(fs, fs');
    }
  }

  // ---------------------------------------------------------------- joined paths

  lemma {:induction false} WalkAppend(a: seq<string>, b: seq<string>, at: Path)
    ensures Walk(a + b, at) == Walk(b, Walk(a, at))
    decreases |a|
  {
    if a == [] {
      assert a + b == b;
    } else {
      assert (a + b)[1..] == a[1..] + b && (a + b)[0] == a[0];
      WalkAppend(a[1..], b, if a[0] == "" || a[0] == "." then at
                            else if a[0] == ".." then (if at == [] then [] else at[..|at| - 1])
                            else at + [a[0]]);
    }
  }

  lemma {:induction false} SplitConcat(a: string, b: string)
    ensures Split(a + "/" + b, '/') == Split(a, '/') + Split(b, '/')
  {
    if a == "" {
      assert (a + "/" + b)[1..] == b;
    } else {
      assert (a + "/" + b)[1..] == a[1..] + "/" + b;
      SplitConcat(a[1..], b);
    }
  }

  lemma {:induction false} ResolveStripped(dir: string)
    ensures Resolve(StripSlashes(dir)) == Resolve(dir)
  {
    if dir != "" && dir[|dir| - 1] == '/' {
      var front := dir[..|dir| - 1];
      ResolveStripped(front);
      assert dir == front + "/" + "";
      SplitConcat(front, "");
      WalkAppend(Split(front, '/'), [""], []);
    }
  }

  /** A joined path is absolute and names the child of the directory. */
  lemma JoinResolves(dir: string, name: string)
    requires ProperName(name)
    ensures Resolve(JoinPath(dir, name)) == Resolve(dir) + [name]
  {
    var front := if dir == "/" then "" else StripSlashes(dir);
    SplitConcat(front, name);
    SplitWhole(name, '/');
    WalkAppend(Split(front, '/'), [name], []);
    if dir == "/" {
      assert JoinPath(dir, name) == front + "/" + name;
      assert Split("/", '/') == ["", ""];
    } else {
      ResolveStripped(dir);
    }
  }

  lemma {:induction false} JoinAbsolute(dir: string, name: string)
    requires Absolute(dir)
    ensures Absolute(JoinPath(dir, name))
  {
    if dir != "/" { StripAbsolute(dir); }
  }

  lemma {:induction false} StripAbsolute(dir: string)
    requires Absolute(dir)
    ensures StripSlashes(dir) == "" || Absolute(StripSlashes(dir))
  {
    if dir[|dir| - 1] == '/' && |dir| > 1 { StripAbsolute(dir[..|dir| - 1]); }
  }

  /** A path joined as text: one slash between directory and name, whatever slashes the directory
      ends with; the root keeps its own. */
  lemma JoinText(dir: string, name: string)
    ensures JoinPath("/", name) == "/" + name
    ensures dir != "" && dir[|dir| - 1] != '/' ==> JoinPath(dir, name) == dir + "/" + name
    ensures dir != "" && dir != "/" ==> JoinPath(dir + "/", name) == JoinPath(dir, name)
  {
    assert (dir + "/")[..|dir|] == dir;
  }

  /** No file stands at `t` or on the way from there down `q`. */
  predicate WayFree(fs: Fs, t: Path, q: Path) { forall i :: 0 <= i <= |q| ==> !IsFile(fs, t + q[..i]) }

  lemma WayNotBlocked(fs: Fs, t: Path, q: Path)
    requires WayFree(fs, t, q)
    ensures !Blocked(fs, t, t + q)
  {
    forall i | 0 <= i <= |t + q| && t <= (t + q)[..i] ensures !IsFile(fs, (t + q)[..i]) {
      assert (t + q)[..i] == t + q[..i - |t|];
    }
  }

  lemma MergeAdds(fs: Fs, s: Path, t: Path, q: Path)
    requires s + q in fs && WayFree(fs, t, q)
    ensures t + q in Merge(fs, s, t) && (t + q !in fs ==> Merge(fs, s, t)[t + q] == fs[s + q])
  {
    RebaseAppend(t, s, q);
    WayNotBlocked(fs, t, q);
    assert t + q in Image(fs, s, t);
  }

  lemma CpOntoDir(fs: Fs, s: Path, d: Path, skipped: nat)
    requires s != [] && IsDir(fs, s) && IsDir(fs, Landing(fs, s, d)) && !(s <= Landing(fs, s, d))
    ensures Cp(fs, s, d, skipped).fs == Merge(fs, s, Landing(fs, s, d))
  {}

  /** `cp -a -n` of a directory onto one that is there: what is there stays, and every entry of
      the source that meets no file on its way is there afterwards, with the source's content
      where there was nothing. */
  lemma CpMerges(fs: Fs, s: Path, d: Path, skipped: nat, q: Path)
    requires ValidFs(fs) && s != [] && IsDir(fs, s) && IsDir(fs, Landing(fs, s, d)) && !(s <= Landing(fs, s, d))
    ensures var t, fs' := Landing(fs, s, d), Cp(fs, s, d, skipped).fs;
            && Extends(fs, fs')
            && (s + q in fs && WayFree(fs, t, q) ==> t + q in fs' && (t + q !in fs ==> fs'[t + q] == fs[s + q]))
  {
    var t := Landing(fs, s, d);
    CpOntoDir(fs, s, d, skipped);
    assert Extends(fs, Merge(fs, s, t)) by { MergeMeaning(fs, s, t); }
    if s + q in fs && WayFree(fs, t, q) { MergeAdds(fs, s, t, q); }
  }
}
