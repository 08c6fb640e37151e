/**
 * The POSIX path functions the build engine relies on, on Python 2 byte
 * strings: `posixpath.join`, `basename`, `dirname`, `splitext`, `relpath`,
 * `normpath`, `str.split('/')`, and the two helpers of build_tasks.py built on them,
 * `change_ext` and `should_ignore`.
 */
module BuildPaths {
  import opened Wrappers
  import opened ByteOrder

  type Path = seq<Byte>

  const SLASH: Byte := 47
  const DOT: Byte := 46
  const TILDE: Byte := 126
  const NEWLINE: Byte := 10

  /** The bytes of an ASCII text: each character's code, which is below 256 for ASCII. */
  function Ascii(s: string): (r: Path)
    ensures |r| == |s| && forall i | 0 <= i < |s| :: r[i] == s[i] as int % 256
  {
    seq(|s|, i requires 0 <= i < |s| => s[i] as int % 256)
  }

  datatype PathError =
    /** `path.join()` with no arguments. */
    | TypeError
    /** `relpath('')`. */
    | NoPathSpecified
    /** `bname[0]` on an empty base name. */
    | IndexError
    /** A read of a local variable that was never assigned. */
    | UnboundLocalError

  /** `posixpath.join(a, b)`: an absolute b replaces a; otherwise one slash separates them. */
  function Join(a: Path, b: Path): (r: Path)
    ensures |b| > 0 && b[0] == SLASH ==> r == b
    ensures (|b| == 0 || b[0] != SLASH) && (|a| == 0 || a[|a| - 1] == SLASH) ==> r == a + b
    ensures (|b| == 0 || b[0] != SLASH) && |a| > 0 && a[|a| - 1] != SLASH ==> r == a + [SLASH] + b
  {
    if |b| > 0 && b[0] == SLASH then b
    else if |a| == 0 || a[|a| - 1] == SLASH then a + b
    else a + [SLASH] + b
  }

  /** `posixpath.join(*parts)`: a left fold of Join. */
  function JoinAll(parts: seq<Path>): (r: Path)
    requires |parts| > 0
  {
    if |parts| == 1 then parts[0] else Join(JoinAll(parts[..|parts| - 1]), parts[|parts| - 1])
  }

  /** `p.rfind(c)`: the last position of c, or -1. */
  function RFind(p: Path, c: Byte): (r: int)
    ensures -1 <= r < |p| && (r >= 0 ==> p[r] == c)
    ensures forall i | r < i < |p| :: p[i] != c
  {
    if |p| == 0 then -1 else if p[|p| - 1] == c then |p| - 1 else RFind(p[..|p| - 1], c)
  }

  /** `posixpath.basename`: everything after the last slash. */
  function BaseName(p: Path): (r: Path)
    ensures SLASH !in r && |r| <= |p| && p[|p| - |r|..] == r
    ensures |r| < |p| ==> p[|p| - |r| - 1] == SLASH
  {
    p[RFind(p, SLASH) + 1..]
  }

  /** `posixpath.dirname`: everything before the last slash, trailing slashes dropped unless all slashes. */
  function DirName(p: Path): (r: Path)
    ensures |r| <= |p| - |BaseName(p)| && p[..|r|] == r
    ensures forall i | |r| <= i < |p| - |BaseName(p)| :: p[i] == SLASH
    ensures |r| > 0 && r[|r| - 1] == SLASH ==> forall i | 0 <= i < |r| :: r[i] == SLASH
  {
    var head := p[..RFind(p, SLASH) + 1];
    if head != [] && exists i | 0 <= i < |head| :: head[i] != SLASH then StripSlashes(head) else head
  }

  /** `head.rstrip('/')`. */
  function StripSlashes(p: Path): (r: Path)
    ensures |r| <= |p| && p[..|r|] == r && (|r| > 0 ==> r[|r| - 1] != SLASH)
    ensures forall i | |r| <= i < |p| :: p[i] == SLASH
  {
    if |p| > 0 && p[|p| - 1] == SLASH then StripSlashes(p[..|p| - 1]) else p
  }

  /**
   * The position of the extension's dot, or -1: the last dot, provided it
   * lies after the last slash and some byte between them is not a dot.
   */
  function ExtDot(p: Path): (r: int)
    ensures -1 <= r < |p|
  {
    var sep := RFind(p, SLASH);
    var dot := RFind(p, DOT);
    if dot > sep && exists i | sep + 1 <= i < dot :: p[i] != DOT then dot else -1
  }

  /** `posixpath.splitext`: (root, ext) with root + ext == p. */
  function SplitExt(p: Path): (r: (Path, Path))
    ensures r.0 + r.1 == p
    ensures r.1 == [] || (r.1[0] == DOT && DOT !in r.1[1..] && SLASH !in r.1)
  {
    var d := ExtDot(p);
    if d < 0 then (p, []) else (p[..d], p[d..])
  }

  /** `change_ext(p, e)`: keep the root that splitext gives, append e. */
  function ChangeExt(p: Path, ext: Path): (r: Path)
    ensures |ext| <= |r| <= |p| + |ext| && r[|r| - |ext|..] == ext
    ensures var n := |r| - |ext|; p[..n] == r[..n]
    ensures var n := |r| - |ext|; n == |p| || (p[n] == DOT && DOT !in p[n + 1..] && SLASH !in p[n..])
  {
    SplitExt(p).0 + ext
  }

  /**
   * change_ext replaces only the final extension: when p[d] is a dot
   * with no dot or slash after it, and its base name has a byte other
   * than a dot before d, the part from d on is replaced and everything
   * before it is kept.
   */
  lemma ChangeExtReplacesFinal(p: Path, d: nat, ext: Path)
    requires d < |p| && p[d] == DOT
    requires forall i | d < i < |p| :: p[i] != DOT && p[i] != SLASH
    requires exists i | RFind(p[..d], SLASH) < i < d :: p[i] != DOT
    ensures ChangeExt(p, ext) == p[..d] + ext
  {
    RFindLast(p, DOT, d);
    RFindBefore(p, SLASH, d);
  }

  /** The last c is at d when there is none after d. */
  lemma {:induction false} RFindLast(p: Path, c: Byte, d: nat)
    requires d < |p| && p[d] == c && forall i | d < i < |p| :: p[i] != c
    ensures RFind(p, c) == d
    decreases |p|
  {
    if d < |p| - 1 {
      RFindLast(p[..|p| - 1], c, d);
    }
  }

  /** With no c from d on, the last c is the last one before d. */
  lemma {:induction false} RFindBefore(p: Path, c: Byte, d: nat)
    requires d <= |p| && forall i | d <= i < |p| :: p[i] != c
    ensures RFind(p, c) == RFind(p[..d], c)
    decreases |p|
  {
    if d < |p| {
      assert p[..|p| - 1][..d] == p[..d];
      RFindBefore(p[..|p| - 1], c, d);
    } else {
      assert p[..d] == p;
    }
  }

  /** A path without dots in its base name keeps no extension: change_ext only appends. */
  lemma ChangeExtWithoutDot(p: Path, ext: Path)
    requires DOT !in BaseName(p)
    ensures ChangeExt(p, ext) == p + ext
  {
  }

  /**
   * `should_ignore`: the base name starts with a dot or ends with a
   * tilde. An empty base name (a path ending in a slash) raises
   * IndexError.
   */
  function ShouldIgnore(p: Path): (r: Result<bool, PathError>)
    ensures var b := BaseName(p);
      (b == [] <==> r == Failure(IndexError)) &&
      (b != [] ==> (r == Success(true) <==> b[0] == DOT || b[|b| - 1] == TILDE))
  {
    var b := BaseName(p);
    if |b| == 0 then Failure(IndexError) else Success(b[0] == DOT || b[|b| - 1] == TILDE)
  }

  /** `p.split('/')`: at least one piece, none holding a slash. */
  function Split(p: Path): (r: seq<Path>)
    ensures |r| > 0 && forall i | 0 <= i < |r| :: SLASH !in r[i]
  {
    if |p| == 0 then [[]]
    else
      var rest := Split(p[1..]);
      if p[0] == SLASH then [[]] + rest else [[p[0]] + rest[0]] + rest[1..]
  }

  /** `'/'.join(parts)`. */
  function Joined(parts: seq<Path>): (r: Path)
    requires |parts| > 0
  {
    if |parts| == 1 then parts[0] else parts[0] + [SLASH] + Joined(parts[1..])
  }

  /** A slash-free prefix is glued to the first piece of what follows it. */
  lemma {:induction false} SplitPrefix(c: Path, t: Path)
    requires SLASH !in c
    ensures Split(c + t) == [c + Split(t)[0]] + Split(t)[1..]
  {
    if c == [] {
      assert c + t == t && c + Split(t)[0] == Split(t)[0];
      assert [Split(t)[0]] + Split(t)[1..] == Split(t);
    } else {
      assert (c + t)[1..] == c[1..] + t;
      assert c[0] in c;
      SplitPrefix(c[1..], t);
      assert [c[0]] + (c[1..] + Split(t)[0]) == c + Split(t)[0];
    }
  }

  /** Splitting a slash-joined list of slash-free pieces gives the pieces back. */
  lemma {:induction false} SplitJoined(parts: seq<Path>)
    requires |parts| > 0 && forall i | 0 <= i < |parts| :: SLASH !in parts[i]
    ensures Split(Joined(parts)) == parts
  {
    if |parts| == 1 {
      SplitPrefix(parts[0], []);
      assert parts[0] + [] == parts[0];
    } else {
      var tail := Joined(parts[1..]);
      SplitJoined(parts[1..]);
      assert ([SLASH] + tail)[1..] == tail;
      assert Split([SLASH] + tail) == [[]] + parts[1..];
      SplitPrefix(parts[0], [SLASH] + tail);
      assert parts[0] + [SLASH] + tail == parts[0] + ([SLASH] + tail);
      assert parts[0] + [] == parts[0];
    }
  }

  /** A path component: not empty, no slash. */
  ghost predicate IsComponent(c: Path)
  {
    |c| > 0 && SLASH !in c
  }

  /** The components of a path: its slash-separated pieces that are not empty. */
  function Components(p: Path): (r: seq<Path>)
    ensures forall i | 0 <= i < |r| :: IsComponent(r[i])
  {
    NonEmpty(Split(p))
  }

  /** The non-empty pieces, in order. */
  function NonEmpty(pieces: seq<Path>): (r: seq<Path>)
    requires forall i | 0 <= i < |pieces| :: SLASH !in pieces[i]
    ensures forall i | 0 <= i < |r| :: IsComponent(r[i])
  {
    if |pieces| == 0 then []
    else (if |pieces[0]| > 0 then [pieces[0]] else []) + NonEmpty(pieces[1..])
  }

  /** Folding join over components is the same as joining them with slashes. */
  lemma {:induction false} JoinAllComponents(parts: seq<Path>)
    requires |parts| > 0 && forall i | 0 <= i < |parts| :: IsComponent(parts[i])
    ensures JoinAll(parts) == Joined(parts)
  {
    if |parts| > 1 {
      var init, last := parts[..|parts| - 1], parts[|parts| - 1];
      JoinAllComponents(init);
      JoinedSnoc(init, last);
      assert last[0] in last;
      assert init + [last] == parts;
    }
  }

  /** Joining with one more piece at the end. */
  lemma {:induction false} JoinedSnoc(init: seq<Path>, last: Path)
    requires |init| > 0 && forall i | 0 <= i < |init| :: IsComponent(init[i])
    ensures Joined(init + [last]) == Joined(init) + [SLASH] + last
    ensures |Joined(init)| > 0 && Joined(init)[|Joined(init)| - 1] != SLASH
  {
    if |init| == 1 {
      assert init[0][|init[0]| - 1] in init[0];
    } else {
      assert (init + [last])[1..] == init[1..] + [last];
      JoinedSnoc(init[1..], last);
    }
  }

  /** Length of the common prefix of two component lists. */
  function CommonPrefix(a: seq<Path>, b: seq<Path>): (i: nat)
    ensures i <= |a| && i <= |b| && a[..i] == b[..i]
    ensures i < |a| && i < |b| ==> a[i] != b[i]
  {
    if |a| == 0 || |b| == 0 || a[0] != b[0] then 0
    else
      var k := CommonPrefix(a[1..], b[1..]);
      assert a[..k + 1] == [a[0]] + a[1..][..k];
      assert b[..k + 1] == [b[0]] + b[1..][..k];
      1 + k
  }

  /** The component `..`. */
  const PARDIR: Path := [DOT, DOT]

  /**
   * `normpath`'s loop over the pieces of a path: empty pieces and `.` are
   * skipped; `..` removes the component before it, unless there is none
   * or it is itself `..`, in which case a relative path keeps the `..`
   * and an absolute one drops it; any other piece is appended.
   */
  function Normalize(pieces: seq<Path>, absolute: bool): (r: seq<Path>)
    requires forall i | 0 <= i < |pieces| :: SLASH !in pieces[i]
    ensures forall i | 0 <= i < |r| :: IsComponent(r[i]) && r[i] != [DOT]
    ensures absolute ==> forall i | 0 <= i < |r| :: r[i] != PARDIR
    ensures forall i | 0 < i < |r| :: r[i] == PARDIR ==> r[i - 1] == PARDIR
    decreases |pieces|
  {
    if |pieces| == 0 then []
    else
      var prev := Normalize(pieces[..|pieces| - 1], absolute);
      var c := pieces[|pieces| - 1];
      if c == [] || c == [DOT] then prev
      else if c != PARDIR || (!absolute && prev == []) || (prev != [] && prev[|prev| - 1] == PARDIR) then prev + [c]
      else if prev != [] then prev[..|prev| - 1]
      else prev
  }

  /** Pieces with no `.` or `..` among them normalise to their non-empty pieces. */
  lemma {:induction false} NormalizePlain(pieces: seq<Path>, absolute: bool)
    requires forall i | 0 <= i < |pieces| :: SLASH !in pieces[i] && pieces[i] != [DOT] && pieces[i] != PARDIR
    ensures Normalize(pieces, absolute) == NonEmpty(pieces)
    decreases |pieces|
  {
    if |pieces| > 0 {
      var init, last := pieces[..|pieces| - 1], pieces[|pieces| - 1];
      NormalizePlain(init, absolute);
      NonEmptySnoc(init, last);
      assert init + [last] == pieces;
    }
  }

  /** Filtering a list with one more piece at the end. */
  lemma {:induction false} NonEmptySnoc(init: seq<Path>, last: Path)
    requires forall i | 0 <= i < |init| :: SLASH !in init[i]
    requires SLASH !in last
    ensures NonEmpty(init + [last]) == NonEmpty(init) + (if |last| > 0 then [last] else [])
    decreases |init|
  {
    if |init| == 0 {
      assert init + [last] == [last];
      assert NonEmpty([last][1..]) == [];
    } else {
      assert (init + [last])[0] == init[0];
      assert (init + [last])[1..] == init[1..] + [last];
      NonEmptySnoc(init[1..], last);
    }
  }

  /**
   * `abspath` as components: a relative path is taken against cwd, then
   * normalised; a relative result with nothing left is `.`.
   */
  function AbsComponents(cwd: Path, p: Path): (r: seq<Path>)
    ensures forall i | 0 <= i < |r| :: IsComponent(r[i])
    ensures var j := Join(cwd, p); |j| > 0 && j[0] == SLASH ==>
      forall i | 0 <= i < |r| :: r[i] != [DOT] && r[i] != PARDIR
  {
    var j := Join(cwd, p);
    var absolute := |j| > 0 && j[0] == SLASH;
    var n := Normalize(Split(j), absolute);
    if n == [] && !absolute then [[DOT]] else n
  }

  /** An absolute path with no `.` or `..` component normalises to its components. */
  lemma AbsComponentsPlain(cwd: Path, p: Path)
    requires |Join(cwd, p)| > 0 && Join(cwd, p)[0] == SLASH
    requires forall i | 0 <= i < |Split(Join(cwd, p))| :: Split(Join(cwd, p))[i] != [DOT] && Split(Join(cwd, p))[i] != PARDIR
    ensures AbsComponents(cwd, p) == Components(Join(cwd, p))
  {
    NormalizePlain(Split(Join(cwd, p)), true);
  }

  /** `x/../y` against the directory `/r` is `/r/y`: a `..` cancels the component before it. */
  lemma AbsComponentsCancelsPardir()
    ensures AbsComponents([SLASH, 114], [120, SLASH, DOT, DOT, SLASH, 121]) == [[114], [121]]
  {
    var j := Join([SLASH, 114], [120, SLASH, DOT, DOT, SLASH, 121]);
    assert j == [SLASH, 114, SLASH, 120, SLASH, DOT, DOT, SLASH, 121];
    SplitExample();
    var pieces: seq<Path> := [[], [114], [120], PARDIR, [121]];
    assert pieces[..4] == [[], [114], [120], PARDIR];
    assert pieces[..4][..3] == [[], [114], [120]];
    assert pieces[..4][..3][..2] == [[], [114]];
    assert pieces[..4][..3][..2][..1] == [[]];
    assert Normalize(pieces[..4][..3][..2][..1], true) == [];
    assert Normalize(pieces[..4][..3][..2], true) == [[114]];
    assert Normalize(pieces[..4][..3], true) == [[114], [120]];
    assert Normalize(pieces[..4], true) == [[114]];
  }

  /** The pieces of `/r/x/../y`. */
  lemma SplitExample()
    ensures Split([SLASH, 114, SLASH, 120, SLASH, DOT, DOT, SLASH, 121]) == [[], [114], [120], PARDIR, [121]]
  {
    SplitJoined([[], [114], [120], PARDIR, [121]]);
    assert Joined([[121]]) == [121];
    assert Joined([PARDIR, [121]]) == [DOT, DOT, SLASH, 121];
    assert Joined([[120], PARDIR, [121]]) == [120, SLASH, DOT, DOT, SLASH, 121];
    assert Joined([[114], [120], PARDIR, [121]]) == [114, SLASH, 120, SLASH, DOT, DOT, SLASH, 121];
  }

  /**
   * `relpath(p, start)` as components: one `..` per component of start
   * past the common prefix, then the rest of p.
   */
  function RelComponents(cwd: Path, p: Path, start: Path): (r: seq<Path>)
    ensures forall i | 0 <= i < |r| :: IsComponent(r[i])
  {
    var s := AbsComponents(cwd, start);
    var q := AbsComponents(cwd, p);
    var i := CommonPrefix(s, q);
    var r := Pardirs(|s| - i) + q[i..];
    r
  }

  /** n copies of `..`. */
  function Pardirs(n: nat): (r: seq<Path>)
    ensures |r| == n && forall k | 0 <= k < n :: r[k] == PARDIR
  {
    if n == 0 then [] else Pardirs(n - 1) + [PARDIR]
  }

  /** `relpath(p, start)`: '.' when nothing is left; ValueError for an empty p. */
  function RelPath(cwd: Path, p: Path, start: Path): (r: Result<Path, PathError>)
    ensures p == [] <==> r == Failure(NoPathSpecified)
    ensures r.Success? && RelComponents(cwd, p, start) == [] ==> r.value == [DOT]
    ensures r.Success? && RelComponents(cwd, p, start) != [] ==> Split(r.value) == RelComponents(cwd, p, start)
  {
    if p == [] then Failure(NoPathSpecified)
    else
      var rel := RelComponents(cwd, p, start);
      if rel == [] then Success([DOT])
      else
        JoinAllComponents(rel);
        SplitJoined(rel);
        Success(JoinAll(rel))
  }

  /** A path relative to itself is `.`. */
  lemma RelPathOfItself(cwd: Path, p: Path)
    requires p != []
    ensures RelPath(cwd, p, p) == Success([DOT])
  {
    var s := AbsComponents(cwd, p);
    assert CommonPrefix(s, s) == |s|;
  }

  /**
   * The name `as_output_node` gives to `file()` for a source path src:
   * relpath(src, root) split on slashes, its first piece dropped, the
   * rest joined under outDir. Nothing left to join raises TypeError.
   */
  function OutputName(cwd: Path, root: Path, outDir: Path, src: Path): (r: Result<Path, PathError>)
  {
    var rel := RelPath(cwd, src, root);
    if rel.Failure? then Failure(rel.error)
    else
      var comps := Split(rel.value);
      if |comps| < 2 then Failure(TypeError) else Success(Join(outDir, JoinAll(comps[1..])))
  }

  /**
   * Outputs mirror the tree below the top directory: for a source whose
   * components are root's, then a top directory, then at least one more,
   * the output is those further components joined under outDir.
   */
  lemma OutputMirrorsTree(cwd: Path, root: Path, outDir: Path, src: Path, top: Path, rest: seq<Path>)
    requires src != [] && IsComponent(top) && |rest| > 0
    requires forall i | 0 <= i < |rest| :: IsComponent(rest[i])
    requires AbsComponents(cwd, src) == AbsComponents(cwd, root) + ([top] + rest)
    ensures OutputName(cwd, root, outDir, src) == Success(Join(outDir, Joined(rest)))
  {
    var rel := [top] + rest;
    RelOfSubtree(cwd, root, src, rel);
    OutputOfRel(cwd, root, outDir, src, rel);
    assert rel[1..] == rest;
  }

  /** A source directly in a directory under root has nothing left to join: TypeError. */
  lemma OutputOfTopLevelFails(cwd: Path, root: Path, outDir: Path, src: Path, top: Path)
    requires src != [] && IsComponent(top)
    requires AbsComponents(cwd, src) == AbsComponents(cwd, root) + [top]
    ensures OutputName(cwd, root, outDir, src) == Failure(TypeError)
  {
    RelOfSubtree(cwd, root, src, [top]);
    OutputOfRel(cwd, root, outDir, src, [top]);
  }

  /** The output name, from the relative components of a source. */
  lemma OutputOfRel(cwd: Path, root: Path, outDir: Path, src: Path, rel: seq<Path>)
    requires src != [] && |rel| > 0 && RelComponents(cwd, src, root) == rel
    ensures |rel| > 1 ==> OutputName(cwd, root, outDir, src) == Success(Join(outDir, Joined(rel[1..])))
    ensures |rel| == 1 ==> OutputName(cwd, root, outDir, src) == Failure(TypeError)
  {
    JoinAllComponents(rel);
    SplitJoined(rel);
    if |rel| > 1 {
      JoinAllComponents(rel[1..]);
    }
  }

  /** relpath of a path below start is the part past start. */
  lemma RelOfSubtree(cwd: Path, start: Path, p: Path, rel: seq<Path>)
    requires AbsComponents(cwd, p) == AbsComponents(cwd, start) + rel
    ensures RelComponents(cwd, p, start) == rel
  {
    var s := AbsComponents(cwd, start);
    var q := AbsComponents(cwd, p);
    var i := CommonPrefix(s, q);
    assert q[..|s|] == s;
    assert q[|s|..] == rel;
  }

  /** What `as_output_node` is given: a node (anything with a filename) or a path. */
  datatype OutputSource = NodeSource(filename: Path) | NameSource(name: Path)

  /**
   * The path `as_output_node` computes, as written: for a node it reads
   * `src.filename` before `src` is assigned, which raises.
   */
  function OutputNameAsWritten(cwd: Path, root: Path, outDir: Path, source: OutputSource): (r: Result<Path, PathError>)
    ensures source.NodeSource? ==> r == Failure(UnboundLocalError)
  {
    match source
    case NodeSource(_) => Failure(UnboundLocalError)
    case NameSource(name) => OutputName(cwd, root, outDir, name)
  }

  /** The intended `as_output_node`: a node stands for its filename. */
  function OutputNameIntended(cwd: Path, root: Path, outDir: Path, source: OutputSource): (r: Result<Path, PathError>)
  {
    match source
    case NodeSource(filename) => OutputName(cwd, root, outDir, filename)
    case NameSource(name) => OutputName(cwd, root, outDir, name)
  }

  /**
   * Passing a node fails as written, for every node, while the intended
   * version treats a node and its filename alike; on a path both agree.
   */
  lemma OutputNodeOfNodeFails(cwd: Path, root: Path, outDir: Path, filename: Path)
    ensures OutputNameAsWritten(cwd, root, outDir, NodeSource(filename)) == Failure(UnboundLocalError)
    ensures OutputNameIntended(cwd, root, outDir, NodeSource(filename))
         == OutputNameIntended(cwd, root, outDir, NameSource(filename))
    ensures OutputNameAsWritten(cwd, root, outDir, NameSource(filename))
         == OutputNameIntended(cwd, root, outDir, NameSource(filename))
  {
  }
}
