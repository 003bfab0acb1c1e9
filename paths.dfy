/** The two path helpers the source relies on: `filepath.Ext` and the base name `os.Stat` reports. */
module Paths {

  /** The characters after the last '/', or all of p when it has none. */
  function LastElement(p: string): (r: string)
    ensures '/' !in r
    ensures |r| <= |p| && r == p[|p| - |r|..]
    ensures |r| < |p| ==> p[|p| - |r| - 1] == '/'
  {
    if |p| == 0 || p[|p| - 1] == '/' then ""
    else
      var init := p[..|p| - 1];
      var r := LastElement(init) + [p[|p| - 1]];
      assert init[|init| - |r| + 1..] + [p[|p| - 1]] == p[|p| - |r|..];
      r
  }

  /** `filepath.Ext`: the suffix of p from the last '.' of its last element, or "" when that element has no '.'. */
  function Ext(p: string): (e: string)
    ensures |e| <= |p| && e == p[|p| - |e|..]
  {
    if |p| == 0 || p[|p| - 1] == '/' then ""
    else if p[|p| - 1] == '.' then p[|p| - 1..]
    else
      var init := p[..|p| - 1];
      var e := Ext(init);
      if e == "" then ""
      else
        assert init[|init| - |e|..] + [p[|p| - 1]] == p[|p| - |e| - 1..];
        e + [p[|p| - 1]]
  }

  /** What `Ext` finds: a '.' followed by neither '.' nor '/'. */
  lemma {:induction false} ExtShape(p: string)
    ensures Ext(p) != "" ==> Ext(p)[0] == '.'
    ensures forall i :: 0 <= i < |Ext(p)| ==> Ext(p)[i] != '/' && (i > 0 ==> Ext(p)[i] != '.')
  {
    if |p| > 0 && p[|p| - 1] != '/' && p[|p| - 1] != '.' {
      var init := p[..|p| - 1];
      ExtShape(init);
      var e, c := Ext(init), p[|p| - 1];
      if e != "" {
        var x := e + [c];
        assert Ext(p) == x;
        assert forall i :: 0 <= i < |e| ==> x[i] == e[i];
      }
    }
  }

  /** `Ext` is "" exactly when the last element of the path has no '.'. */
  lemma {:induction false} ExtEmpty(p: string)
    ensures Ext(p) == "" <==> '.' !in LastElement(p)
  {
    if |p| > 0 && p[|p| - 1] != '/' && p[|p| - 1] != '.' {
      var init := p[..|p| - 1];
      ExtEmpty(init);
      assert LastElement(p) == LastElement(init) + [p[|p| - 1]];
    }
  }

  /** p without its trailing slashes, keeping the first character. */
  function StripTrailingSlashes(p: string): (q: string)
    ensures q <= p && (|p| > 0 ==> |q| > 0)
    ensures |q| > 1 ==> q[|q| - 1] != '/'
  {
    if |p| > 1 && p[|p| - 1] == '/' then StripTrailingSlashes(p[..|p| - 1]) else p
  }

  /** The name `os.Stat(p).Name()` reports: the last element of p, ignoring trailing slashes. */
  function BaseName(p: string): (r: string)
    ensures r == "/" || '/' !in r
    ensures p != "" ==> r != ""
  {
    var q := StripTrailingSlashes(p);
    if q == "/" then "/" else LastElement(q)
  }

  lemma TarExtension()
    ensures Ext("a.tar") == ".tar"
  {
    assert "a."[1..] == ".";
    assert Ext("a.") == ".";
    assert "a.t"[..2] == "a.";
    assert Ext("a.t") == ".t";
    assert "a.ta"[..3] == "a.t";
    assert Ext("a.ta") == ".ta";
    assert "a.tar"[..4] == "a.ta";
  }

  lemma XzExtension()
    ensures Ext("b.tar.xz") == ".xz"
  {
    assert "b.tar."[5..] == ".";
    assert Ext("b.tar.") == ".";
    assert "b.tar.x"[..6] == "b.tar.";
    assert Ext("b.tar.x") == ".x";
    assert "b.tar.xz"[..7] == "b.tar.x";
  }

  lemma BaseNameOfNestedPath()
    ensures BaseName("d/a") == "a"
  {
    assert "d/a"[..2] == "d/";
  }
}
