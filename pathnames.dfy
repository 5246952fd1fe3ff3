/**
 * The two string helpers the file name of a stored object depends on:
 * `strings.TrimLeft(s, ".")` and `filepath.Ext` with '/' as the only separator.
 */
module PathNames {

  /** A '/'-separated path as its list of elements; `[]` is the filesystem root. */
  type Path = seq<string>

  /**
   * An element that joining with '/' leaves intact: `filepath.Join` would
   * neither split it nor clean it away.
   */
  predicate CleanSegment(s: string)
  {
    s != [] && '/' !in s && s != "." && s != ".."
  }

  /** `q` lies at or below `p`. */
  predicate IsPrefix(p: Path, q: Path)
  {
    |p| <= |q| && q[..|p|] == p
  }

  /** `strings.TrimLeft(s, ".")`: drops every leading '.'. */
  function TrimLeftDots(s: string): (r: string)
    ensures |r| <= |s| && r == s[|s| - |r|..]
    ensures r == [] || r[0] != '.'
    ensures forall k | 0 <= k < |s| - |r| :: s[k] == '.'
  {
    if s != [] && s[0] == '.' then TrimLeftDots(s[1..]) else s
  }

  /**
   * The loop of `filepath.Ext`: scan from index `i` towards the front and stop
   * at the first '/' (no extension) or '.' (the extension starts there).
   * Everything after `i` has already been seen to be neither.
   */
  function ExtFrom(p: string, i: int): (e: string)
    requires -1 <= i < |p|
    requires forall k | i < k < |p| :: p[k] != '/' && p[k] != '.'
    ensures |e| <= |p| && e == p[|p| - |e|..]
    ensures e == [] || (e[0] == '.' && '.' !in e[1..])
    ensures '/' !in e
    ensures e == [] ==> forall k | 0 <= k <= i && '/' !in p[k..] :: p[k] != '.'
    decreases i + 1
  {
    if i < 0 || p[i] == '/' then
      assert forall k | 0 <= k <= i :: p[k..][i - k] == '/';
      []
    else if p[i] == '.' then
      p[i..]
    else ExtFrom(p, i - 1)
  }

  /**
   * `filepath.Ext`: the suffix of the last path element that starts at its
   * last '.', or empty when that element has no '.'.
   */
  function Ext(p: string): (e: string)
    ensures |e| <= |p| && e == p[|p| - |e|..]
    ensures e == [] || (e[0] == '.' && '.' !in e[1..])
    ensures '/' !in e
    ensures e == [] <==> forall k | 0 <= k < |p| && '/' !in p[k..] :: p[k] != '.'
  {
    var e := ExtFrom(p, |p| - 1);
    assert e != [] ==> '/' !in p[|p| - |e|..] && p[|p| - |e|] == '.';
    e
  }

  /** The extension a key contributes to its file name: taken after leading dots are removed. */
  function KeyExt(key: string): (e: string)
    ensures |e| <= |key| && e == key[|key| - |e|..]
    ensures e == [] || (e[0] == '.' && '.' !in e[1..])
    ensures '/' !in e
    ensures e != [] ==> |e| < |TrimLeftDots(key)|
  {
    var t := TrimLeftDots(key);
    assert t[|t| - |Ext(t)|..] == key[|key| - |Ext(t)|..];
    assert Ext(t) != [] ==> Ext(t) != t;
    Ext(t)
  }

  /** The extension is exactly the suffix from the last '.' when no '/' follows that dot. */
  lemma ExtAtLastDot(p: string, i: nat)
    requires i < |p| && p[i] == '.'
    requires forall k | i < k < |p| :: p[k] != '/' && p[k] != '.'
    ensures Ext(p) == p[i..]
  {
    var e := Ext(p);
    assert e != [];
  }

  /** A path whose last element has no '.' has no extension. */
  lemma ExtWithoutDot(p: string)
    requires forall k | 0 <= k < |p| :: p[k] != '.'
    ensures Ext(p) == []
  {
  }

  lemma KeyExtOfCsvReport()
    ensures KeyExt("reports/q3.csv") == ".csv"
  {
    var p := "reports/q3.csv";
    assert TrimLeftDots(p) == p;
    ExtAtLastDot(p, 10);
    assert p[10..] == ".csv";
  }

  lemma KeyExtOfLeadingDots()
    ensures KeyExt("...hidden") == ""
  {
    var p := "...hidden";
    var h := "hidden";
    var r := TrimLeftDots(p);
    assert p[3] == 'h';
    assert |p| - |r| == 3;
    assert r == h;
    ExtWithoutDot(h);
    assert KeyExt(p) == Ext(r);
  }
}
