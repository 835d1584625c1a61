/** POSIX `pathlib` as the application uses it: `str(Path(p))`, `.name`,
    `.suffix` and `.with_suffix(...)`. A path is a root flag plus its
    non-empty components; `Path()` drops empty and "." components. */
module Paths {
  import opened Text

  /** Python's `s.split('/')`. */
  function Split(s: string): (r: seq<string>)
    ensures |r| > 0
    decreases |s|
  {
    var i := IndexOf(s, '/');
    if i == |s| then [s] else [s[..i]] + Split(s[i + 1..])
  }

  /** A component `Path()` keeps. */
  predicate IsPart(x: string) {
    x != "" && x != "." && IndexOf(x, '/') == |x|
  }

  function Clean(xs: seq<string>): (r: seq<string>)
    ensures forall k :: 0 <= k < |r| ==> r[k] != "" && r[k] != "."
  {
    if xs == [] then []
    else if xs[0] == "" || xs[0] == "." then Clean(xs[1..])
    else [xs[0]] + Clean(xs[1..])
  }

  function Join(xs: seq<string>): string {
    if xs == [] then "" else if |xs| == 1 then xs[0] else xs[0] + "/" + Join(xs[1..])
  }

  predicate IsRooted(p: string) { |p| > 0 && p[0] == '/' }

  /** The components of `Path(p)`. */
  function Parts(p: string): seq<string> {
    Clean(Split(p))
  }

  function Render(rooted: bool, parts: seq<string>): string {
    if rooted then "/" + Join(parts) else if parts == [] then "." else Join(parts)
  }

  /** `str(Path(p))`. */
  function Normalize(p: string): string {
    Render(IsRooted(p), Parts(p))
  }

  /** `Path(p).name`: the last component, or "" for "/", "." and "". */
  function Name(p: string): string {
    var parts := Parts(p);
    if parts == [] then "" else parts[|parts| - 1]
  }

  /** `PurePath.suffix` of a file name: from the last dot, unless that dot
      leads the name or ends it. */
  function NameSuffix(name: string): (r: string)
    ensures r == "" || (r[0] == '.' && |r| >= 2 && EndsWith(name, r) && |r| < |name|)
  {
    var i := RFind(name, '.');
    if 0 < i < |name| - 1 then name[i..] else ""
  }

  /** `Path(p).suffix`. */
  function Suffix(p: string): string {
    NameSuffix(Name(p))
  }

  /** `str(Path(p).with_suffix(suffix))`; `None` is the `ValueError` raised
      for a path with an empty name. */
  function WithSuffix(p: string, suffix: string): Option<string> {
    var parts := Parts(p);
    if parts == [] then None
    else
      var name := parts[|parts| - 1];
      var stem := name[..|name| - |NameSuffix(name)|];
      Some(Render(IsRooted(p), parts[..|parts| - 1] + [stem + suffix]))
  }

  lemma {:induction false} SplitParts(s: string)
    ensures forall k :: 0 <= k < |Split(s)| ==> IndexOf(Split(s)[k], '/') == |Split(s)[k]|
    decreases |s|
  {
    var i := IndexOf(s, '/');
    if i < |s| {
      SplitParts(s[i + 1..]);
      var r := Split(s);
      forall k | 0 <= k < |r| ensures IndexOf(r[k], '/') == |r[k]| {
        if k == 0 { NoSlash(s[..i]); } else { assert r[k] == Split(s[i + 1..])[k - 1]; }
      }
    } else {
      NoSlash(s);
    }
  }

  lemma {:induction false} NoSlash(x: string)
    requires forall j :: 0 <= j < |x| ==> x[j] != '/'
    ensures IndexOf(x, '/') == |x|
  {
  }

  lemma {:induction false} CleanKeepsParts(xs: seq<string>)
    requires forall k :: 0 <= k < |xs| ==> IndexOf(xs[k], '/') == |xs[k]|
    ensures forall k :: 0 <= k < |Clean(xs)| ==> IsPart(Clean(xs)[k])
  {
    if xs != [] {
      CleanKeepsParts(xs[1..]);
    }
  }

  lemma PartsArePartsOf(p: string)
    ensures forall k :: 0 <= k < |Parts(p)| ==> IsPart(Parts(p)[k])
  {
    SplitParts(p);
    CleanKeepsParts(Split(p));
  }

  lemma {:induction false} CleanOfParts(xs: seq<string>)
    requires forall k :: 0 <= k < |xs| ==> IsPart(xs[k])
    ensures Clean(xs) == xs
  {
    if xs != [] {
      CleanOfParts(xs[1..]);
    }
  }

  lemma {:induction false} SplitJoin(xs: seq<string>)
    requires xs != []
    requires forall k :: 0 <= k < |xs| ==> IndexOf(xs[k], '/') == |xs[k]|
    ensures Split(Join(xs)) == xs
  {
    var x := xs[0];
    if |xs| > 1 {
      var s := Join(xs);
      var t := Join(xs[1..]);
      assert s == x + ("/" + t);
      IndexOfConcat(x, "/" + t);
      assert IndexOf(s, '/') == |x| < |s|;
      assert s[..|x|] == x;
      assert s[|x| + 1..] == t;
      assert Split(s) == [x] + Split(t);
      SplitJoin(xs[1..]);
      assert xs == [x] + xs[1..];
    } else {
      assert Split(x) == [x];
    }
  }

  lemma {:induction false} IndexOfConcat(x: string, y: string)
    requires IndexOf(x, '/') == |x| && y != [] && y[0] == '/'
    ensures IndexOf(x + y, '/') == |x|
    decreases |x|
  {
    if x != [] {
      assert (x + y)[1..] == x[1..] + y;
      IndexOfConcat(x[1..], y);
    }
  }

  /** Rendering clean components and parsing them again gives them back. */
  lemma RenderRoundTrip(rooted: bool, parts: seq<string>)
    requires forall k :: 0 <= k < |parts| ==> IsPart(parts[k])
    ensures Parts(Render(rooted, parts)) == parts
    ensures IsRooted(Render(rooted, parts)) == rooted
  {
    var r := Render(rooted, parts);
    if parts == [] {
      if rooted {
        assert r == "/";
        assert IndexOf(r, '/') == 0;
        assert r[1..] == "";
        assert Split("") == [""];
        assert Split(r) == ["", ""];
        assert Clean(["", ""]) == Clean([""]) == [];
      } else {
        assert r == ".";
        assert IndexOf(r, '/') == 1;
        assert Split(r) == ["."];
        assert Clean(["."]) == [];
      }
    } else {
      SplitJoin(parts);
      CleanOfParts(parts);
      if rooted {
        var j := Join(parts);
        assert IndexOf(r, '/') == 0;
        assert r[1..] == j;
        assert Split(r) == [""] + Split(j);
        assert Clean([""] + parts) == Clean(parts);
      } else {
        assert parts[0] != "" && IsPart(parts[0]);
        JoinHead(parts);
      }
    }
  }

  lemma {:induction false} JoinHead(parts: seq<string>)
    requires parts != [] && parts[0] != ""
    requires IndexOf(parts[0], '/') == |parts[0]|
    ensures Join(parts) != [] && Join(parts)[0] == parts[0][0]
  {
    if |parts| > 1 {
      assert Join(parts) == parts[0] + "/" + Join(parts[1..]);
    }
  }

  /** `str(Path(p))` is a fixed point: normalising twice changes nothing. */
  lemma NormalizeIdempotent(p: string)
    ensures Parts(Normalize(p)) == Parts(p)
    ensures Normalize(Normalize(p)) == Normalize(p)
  {
    PartsArePartsOf(p);
    RenderRoundTrip(IsRooted(p), Parts(p));
  }

  /** The stem kept by `with_suffix` is non-empty, so the new name's own
      suffix is exactly the one given. */
  lemma StemMp4(name: string)
    requires IsPart(name)
    ensures var stem := name[..|name| - |NameSuffix(name)|];
      && IsPart(stem + ".mp4")
      && NameSuffix(stem + ".mp4") == ".mp4"
  {
    var stem := name[..|name| - |NameSuffix(name)|];
    var newName := stem + ".mp4";
    assert stem != [];
    assert forall j :: 0 <= j < |stem| ==> stem[j] == name[j] && name[j] != '/';
    assert forall j :: 0 <= j < |newName| ==> newName[j] != '/';
    NoSlash(newName);
    assert newName != "." by { assert |newName| >= 5; }
    assert newName[|stem|] == '.';
    assert forall j :: |stem| < j < |newName| ==> newName[j] != '.';
    RFindLast(newName, |stem|);
    assert newName[|stem|..] == ".mp4";
  }

  lemma {:induction false} RFindLast(s: string, i: nat)
    requires i < |s| && s[i] == '.'
    requires forall j :: i < j < |s| ==> s[j] != '.'
    ensures RFind(s, '.') == i
  {
  }

  /** `with_suffix(".mp4")` gives a path whose name ends in ".mp4" and
      whose suffix is exactly ".mp4"; every other component and the root
      are those of `Path(p)`. */
  lemma WithSuffixMp4(p: string)
    requires WithSuffix(p, ".mp4").Some?
    ensures Mp4Named(WithSuffix(p, ".mp4").value, IsRooted(p), Parts(p)[..|Parts(p)| - 1])
  {
    var parts := Parts(p);
    PartsArePartsOf(p);
    var name := parts[|parts| - 1];
    var stem := name[..|name| - |NameSuffix(name)|];
    StemMp4(name);
    RenderRenamed(IsRooted(p), parts, stem + ".mp4");
    assert WithSuffix(p, ".mp4").value == Render(IsRooted(p), parts[..|parts| - 1] + [stem + ".mp4"]);
  }

  /** A path that ends in ".mp4", has exactly that suffix, is rooted as
      given and has the given components before its name. */
  predicate Mp4Named(r: string, rooted: bool, lead: seq<string>) {
    && EndsWith(r, ".mp4")
    && Suffix(r) == ".mp4"
    && IsRooted(r) == rooted
    && Parts(r) != []
    && Parts(r)[..|Parts(r)| - 1] == lead
  }

  /** Rendering clean components with the last one replaced by a name
      whose suffix is ".mp4". */
  lemma RenderRenamed(rooted: bool, parts: seq<string>, newName: string)
    requires parts != [] && forall k :: 0 <= k < |parts| ==> IsPart(parts[k])
    requires IsPart(newName) && NameSuffix(newName) == ".mp4"
    ensures Mp4Named(Render(rooted, parts[..|parts| - 1] + [newName]), rooted, parts[..|parts| - 1])
  {
    var newParts := parts[..|parts| - 1] + [newName];
    assert forall k :: 0 <= k < |newParts| ==> IsPart(newParts[k]);
    RenderRoundTrip(rooted, newParts);
    var r := Render(rooted, newParts);
    assert Parts(r) == newParts;
    assert Name(r) == newName;
    assert newParts[..|newParts| - 1] == parts[..|parts| - 1];
    assert EndsWith(r, newName) by { JoinLast(newParts); }
    EndsWithTrans(r, newName, ".mp4");
  }

  lemma EndsWithTrans(a: string, b: string, c: string)
    requires EndsWith(a, b) && EndsWith(b, c)
    ensures EndsWith(a, c)
  {
    assert a[|a| - |c|..] == b[|b| - |c|..];
  }

  lemma {:induction false} JoinLast(xs: seq<string>)
    requires xs != []
    ensures EndsWith(Join(xs), xs[|xs| - 1])
    ensures EndsWith("/" + Join(xs), xs[|xs| - 1])
  {
    var last := xs[|xs| - 1];
    var j := Join(xs);
    if |xs| > 1 {
      JoinLast(xs[1..]);
      var t := Join(xs[1..]);
      assert j == (xs[0] + "/") + t;
      EndsWithConcat(xs[0] + "/", t, last);
    }
    EndsWithConcat("/", j, last);
  }

  lemma EndsWithConcat(a: string, b: string, c: string)
    requires EndsWith(b, c)
    ensures EndsWith(a + b, c)
  {
    assert (a + b)[|a + b| - |c|..] == b[|b| - |c|..];
  }

  /** Splitting at a '/' put between two strings splits each on its own. */
  lemma {:induction false} SplitSlash(a: string, b: string)
    ensures Split(a + "/" + b) == Split(a) + Split(b)
    decreases |a|
  {
    var s := a + "/" + b;
    var i := IndexOf(a, '/');
    if i == |a| {
      IndexOfConcat(a, "/" + b);
      assert s == a + ("/" + b);
      assert s[..|a|] == a;
      assert s[|a| + 1..] == b;
    } else {
      assert s[i] == '/';
      assert forall j :: 0 <= j < i ==> s[j] == a[j];
      assert IndexOf(s, '/') == i;
      assert s[..i] == a[..i];
      assert s[i + 1..] == a[i + 1..] + "/" + b;
      SplitSlash(a[i + 1..], b);
    }
  }

  lemma {:induction false} CleanConcat(xs: seq<string>, ys: seq<string>)
    ensures Clean(xs + ys) == Clean(xs) + Clean(ys)
  {
    if xs != [] {
      assert (xs + ys)[0] == xs[0];
      assert (xs + ys)[1..] == xs[1..] + ys;
      CleanConcat(xs[1..], ys);
    } else {
      assert xs + ys == ys;
    }
  }

  /** `Path(a) / b` has the components of `a` followed by those of `b`. */
  lemma PartsConcat(a: string, b: string)
    ensures Parts(a + "/" + b) == Parts(a) + Parts(b)
  {
    SplitSlash(a, b);
    CleanConcat(Split(a), Split(b));
  }

  /** A single component is its own path. */
  lemma PartsOfPart(x: string)
    requires IsPart(x)
    ensures Parts(x) == [x]
  {
    assert Split(x) == [x];
    assert [x][1..] == [];
    assert Clean([x]) == [x] + Clean([]);
  }

  /** A single component's name is itself, and its suffix starts at its
      last dot unless that dot leads or ends it. */
  lemma BareName(x: string, dot: int)
    requires x != "" && x != "." && forall j :: 0 <= j < |x| ==> x[j] != '/'
    requires -1 <= dot < |x| && (dot >= 0 ==> x[dot] == '.')
    requires forall j :: dot < j < |x| ==> x[j] != '.'
    ensures IsPart(x) && Name(x) == x
    ensures Suffix(x) == NameSuffix(x) == if 0 < dot < |x| - 1 then x[dot..] else ""
  {
    NoSlash(x);
    PartsOfPart(x);
    if dot >= 0 {
      RFindLast(x, dot);
    }
  }

  /** `with_suffix` on a single component replaces its suffix in place. */
  lemma WithSuffixOfPart(x: string, suffix: string)
    requires IsPart(x)
    ensures WithSuffix(x, suffix) == Some(x[..|x| - |NameSuffix(x)|] + suffix)
  {
    PartsOfPart(x);
    assert !IsRooted(x) by { assert IndexOf(x, '/') == |x|; }
    var y := x[..|x| - |NameSuffix(x)|] + suffix;
    assert [x][..0] + [y] == [y];
  }
}
