/** Paths as the explorer compares them: as text. */
module ExplorerPaths {
  import opened FileTree

  /** A component of a normalised path. */
  predicate IsName(s: string) { s != "" && '/' !in s }

  predicate Normal(p: Path) { forall i :: 0 <= i < |p| ==> IsName(p[i]) }

  function Tail(p: Path): string {
    if p == [] then "" else "/" + p[0] + Tail(p[1..])
  }

  /** The path as text; the root is a slash. */
  function Text(p: Path): string { if p == [] then "/" else Tail(p) }

  /** `inside`, on the text of two normalised paths. */
  predicate Inside(child: string, parent: string) {
    || parent == "/" || child == parent
    || (|child| > |parent| && child[..|parent|] == parent && child[|parent|] == '/')
  }

  /** A text that starts with another and continues, if at all, with a slash. */
  predicate Continues(c: string, p: string) {
    |p| <= |c| && c[..|p|] == p && (|c| > |p| ==> c[|p|] == '/')
  }

  /** The text test is exact: it holds just when the path lies below the other. */
  lemma InsideIsBelow(c: Path, p: Path)
    requires Normal(c) && Normal(p)
    ensures Inside(Text(c), Text(p)) <==> Below(c, p)
  {
    TailsContinue(c, p);
    if p != [] {
      assert |p[0]| > 0 && |Tail(p)| > 1;
    }
    if c == [] && p != [] {
      assert |Text(c)| == 1;
    }
  }

  lemma {:induction false} TailsContinue(c: Path, p: Path)
    requires Normal(c) && Normal(p)
    ensures Continues(Tail(c), Tail(p)) <==> Below(c, p)
  {
    if p == [] {
    } else if c == [] {
    } else {
      TailsContinue(c[1..], p[1..]);
      HeadsContinue(c[0], Tail(c[1..]), p[0], Tail(p[1..]));
      assert Below(c, p) <==> c[0] == p[0] && Below(c[1..], p[1..]);
    }
  }

  /** Two names before texts that are empty or start with a slash. */
  lemma HeadsContinue(a: string, s: string, b: string, t: string)
    requires IsName(a) && IsName(b) && (s != "" ==> s[0] == '/') && (t != "" ==> t[0] == '/')
    ensures Continues("/" + a + s, "/" + b + t) <==> a == b && Continues(s, t)
  {
    var c, p := "/" + a + s, "/" + b + t;
    assert |a| < |b| ==> p[|a| + 1] == b[|a|] && b[|a|] in b;
    assert |b| < |a| ==> c[|b| + 1] == a[|b|] && a[|b|] in a;
    if Continues(c, p) {
      assert |a| == |b|;
      assert a == c[1..|a| + 1] && b == p[1..|b| + 1];
      assert c[1..|a| + 1] == c[..|p|][1..|a| + 1];
    }
    if a == b && |t| <= |s| {
      assert c[..|p|] == "/" + a + s[..|t|];
      assert c[..|p|][|a| + 1..] == s[..|t|] && p[|a| + 1..] == t;
    }
  }
}
