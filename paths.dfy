/** POSIX path joining, as `os.path.join(a, b)` does it. */
module Paths {

  /** `os.path.join(a, b)`: an absolute `b` replaces `a`; otherwise a `/` is inserted
      unless `a` is empty or already ends with one. */
  function Join(a: string, b: string): (r: string)
    ensures |b| > 0 && b[0] == '/' ==> r == b
    ensures (|b| == 0 || b[0] != '/') ==> |r| >= |a| + |b| && r[..|a|] == a
    ensures (|b| == 0 || b[0] != '/') ==> r[|r| - |b|..] == b
  {
    if |b| > 0 && b[0] == '/' then b
    else if a == [] || a[|a| - 1] == '/' then a + b
    else a + "/" + b
  }

  /** A plain entry name as `os.listdir` returns it: not empty and free of `/`. */
  predicate IsEntryName(name: string) {
    name != [] && forall i :: 0 <= i < |name| ==> name[i] != '/'
  }

  /** Under one parent directory, different entry names give different paths. */
  lemma JoinInjective(a: string, b1: string, b2: string)
    requires IsEntryName(b1) && IsEntryName(b2)
    requires Join(a, b1) == Join(a, b2)
    ensures b1 == b2
  {
    var r := Join(a, b1);
    if a == [] || a[|a| - 1] == '/' {
      assert r == a + b1 && r == a + b2;
      assert b1 == r[|a|..] == b2;
    } else {
      assert r == a + "/" + b1 && r == a + "/" + b2;
      assert b1 == r[|a| + 1..] == b2;
    }
  }
}
