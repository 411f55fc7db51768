/** The file manager's fresh-name loop: "name (2).ext", "name (3).ext", ... */
module UniqueNames {
  import opened Text

  /** Index of the last dot, or -1: `name.lastIndexOf('.')`. */
  function LastDot(name: string): (i: int)
    ensures -1 <= i < |name|
    ensures i >= 0 ==> name[i] == '.' && '.' !in name[i + 1..]
    ensures i == -1 ==> '.' !in name
  {
    if name == "" then -1
    else if name[|name| - 1] == '.' then |name| - 1
    else
      var i := LastDot(name[..|name| - 1]);
      assert name == name[..|name| - 1] + [name[|name| - 1]];
      assert i >= 0 ==> name[i + 1..] == name[..|name| - 1][i + 1..] + [name[|name| - 1]];
      i
  }

  /** The name without its extension; a leading dot does not begin an extension. */
  function Base(name: string): string {
    if LastDot(name) > 0 then name[..LastDot(name)] else name
  }

  function Extension(name: string): string {
    if LastDot(name) > 0 then name[LastDot(name)..] else ""
  }

  lemma BaseAndExtension(name: string)
    ensures Base(name) + Extension(name) == name
  {}

  function Candidate(name: string, n: nat): string {
    Base(name) + " (" + Print(n, 10) + ")" + Extension(name)
  }

  lemma SameMiddle(front: string, a: string, b: string, back: string)
    requires front + a + back == front + b + back
    ensures a == b
  {
    var s := front + a + back;
    assert |a| == |b|;
    assert s[|front|..|front| + |a|] == a;
    assert s[|front|..|front| + |b|] == b;
  }

  /** Different numbers give different names, because decimal printing is injective. */
  lemma CandidateInjective(name: string, m: nat, n: nat)
    requires Candidate(name, m) == Candidate(name, n)
    ensures m == n
  {
    var pm, pn := Print(m, 10), Print(n, 10);
    assert Regrouped(Base(name), pm, Extension(name)) == Regrouped(Base(name), pn, Extension(name)) by {
      Regroup(Base(name), pm, Extension(name));
      Regroup(Base(name), pn, Extension(name));
    }
    SameMiddle(Base(name) + " (", pm, pn, ")" + Extension(name));
    PrintInjective(m, n, 10);
  }

  function Regrouped(base: string, digits: string, ext: string): string { (base + " (") + digits + (")" + ext) }

  lemma Regroup(base: string, digits: string, ext: string)
    ensures base + " (" + digits + ")" + ext == Regrouped(base, digits, ext)
  {}

  lemma CandidateIsNotName(name: string, n: nat)
    ensures Candidate(name, n) != name
  {
    BaseAndExtension(name);
  }

  /** The candidates with numbers from 2 up to, not including, `n`. */
  function Tried(name: string, n: nat): set<string> {
    set k | 2 <= k < n :: Candidate(name, k)
  }

  /** Pigeonhole: that many candidates are that many names. */
  lemma {:induction false} TriedSize(name: string, n: nat)
    requires n >= 2
    ensures |Tried(name, n)| == n - 2
  {
    if n == 2 {
      assert Tried(name, n) == {};
    } else {
      TriedSize(name, n - 1);
      assert Tried(name, n) == Tried(name, n - 1) + {Candidate(name, n - 1)};
      if Candidate(name, n - 1) in Tried(name, n - 1) {
        var k :| 2 <= k < n - 1 && Candidate(name, k) == Candidate(name, n - 1);
        CandidateInjective(name, k, n - 1);
      }
    }
  }

  lemma SubsetSize<T>(a: set<T>, b: set<T>)
    requires a <= b
    ensures |a| <= |b|
  {
    assert b == a + (b - a);
  }

  /** While every number below `n` is taken, `n` is at most one more than the number of
      names: the taken candidates and the name itself are all different. */
  lemma TriedBound(name: string, existing: set<string>, n: nat)
    requires n >= 2 && name in existing && Tried(name, n) <= existing
    ensures n - 1 <= |existing|
  {
    TriedSize(name, n);
    if name in Tried(name, n) {
      var k :| 2 <= k < n && Candidate(name, k) == name;
      CandidateIsNotName(name, k);
    }
    SubsetSize(Tried(name, n) + {name}, existing);
  }

  /** `n` is the least number from 2 on whose candidate is free. */
  ghost predicate LeastFree(name: string, existing: set<string>, n: nat) {
    n >= 2 && Candidate(name, n) !in existing && forall k :: 2 <= k < n ==> Candidate(name, k) in existing
  }

  /** What the file manager uses for a name that may be taken. */
  ghost predicate IsUniqueName(name: string, existing: set<string>, result: string) {
    if name !in existing then result == name
    else exists n :: LeastFree(name, existing, n) && result == Candidate(name, n)
  }

  /** The loop stops after fewer steps than there are names. */
  method UniqueName(name: string, existing: set<string>) returns (result: string, ghost steps: nat)
    ensures IsUniqueName(name, existing, result)
    ensures result !in existing
    ensures name in existing ==> steps < |existing|
    ensures name !in existing ==> result == name && steps == 0
  {
    steps := 0;
    if name !in existing {
      return name, 0;
    }
    var dot := LastDot(name);
    var base := if dot > 0 then name[..dot] else name;
    var ext := if dot > 0 then name[dot..] else "";
    var n := 2;
    TriedBound(name, existing, 2);
    while base + " (" + Print(n, 10) + ")" + ext in existing
      invariant base == Base(name) && ext == Extension(name)
      invariant n == steps + 2
      invariant forall k :: 2 <= k < n ==> Candidate(name, k) in existing
      invariant n - 1 <= |existing|
      decreases |existing| - n
    {
      assert Candidate(name, n) in existing;
      TriedBound(name, existing, n + 1);
      n, steps := n + 1, steps + 1;
    }
    assert LeastFree(name, existing, n);
    result := base + " (" + Print(n, 10) + ")" + ext;
  }

  /** The result is determined by what is promised about it. */
  lemma UniqueNameDetermined(name: string, existing: set<string>, a: string, b: string)
    requires IsUniqueName(name, existing, a) && IsUniqueName(name, existing, b)
    ensures a == b
  {
    if name in existing {
      var m: nat :| LeastFree(name, existing, m) && a == Candidate(name, m);
      var n: nat :| LeastFree(name, existing, n) && b == Candidate(name, n);
      assert m >= n || m < n;
    }
  }

  /** A free number always exists: at most as many names as there are can be taken. */
  lemma UniqueNameExists(name: string, existing: set<string>)
    ensures exists result :: IsUniqueName(name, existing, result)
  {
    if name !in existing {
      assert IsUniqueName(name, existing, name);
    } else {
      var n := SearchFrom(name, existing, 2);
      assert IsUniqueName(name, existing, Candidate(name, n));
    }
  }

  lemma {:induction false} SearchFrom(name: string, existing: set<string>, n: nat) returns (m: nat)
    requires n >= 2 && name in existing && forall k :: 2 <= k < n ==> Candidate(name, k) in existing
    ensures LeastFree(name, existing, m)
    decreases |existing| + 2 - n
  {
    TriedBound(name, existing, n);
    if Candidate(name, n) in existing {
      m := SearchFrom(name, existing, n + 1);
    } else {
      m := n;
    }
  }

  /** The functional form of the result, for the state machine of the file manager. */
  ghost function Unique(name: string, existing: set<string>): (result: string)
    ensures IsUniqueName(name, existing, result) && result !in existing
  {
    UniqueNameExists(name, existing);
    var result :| IsUniqueName(name, existing, result);
    result
  }

  lemma {:induction false} LastDotThenNone(s: string, tail: string)
    requires '.' !in tail
    ensures LastDot(s + tail) == LastDot(s)
    decreases |tail|
  {
    if tail == "" {
      assert s + tail == s;
    } else {
      var front := tail[..|tail| - 1];
      assert tail[|tail| - 1] in tail;
      assert (s + tail)[..|s + tail| - 1] == s + front;
      LastDotThenNone(s, front);
    }
  }

  function Numbered(n: nat): string { " (" + Print(n, 10) + ")" }

  lemma NumberedPlain(n: nat)
    ensures '.' !in Numbered(n) && '/' !in Numbered(n)
  {
    assert forall c :: c in Print(n, 10) ==> IsDigit(c, 10);
  }

  lemma ExtensionOf(front: string, tail: string)
    requires front != "" && '.' !in tail
    ensures Base(front + "." + tail) == front && Extension(front + "." + tail) == "." + tail
  {
    assert LastDot(front + "." + tail) == |front| by {
      LastDotThenNone(front + ".", tail);
      LastDotLast(front);
    }
    CutAt(front, "." + tail);
    assert front + "." + tail == front + ("." + tail);
  }

  lemma LastDotLast(front: string)
    ensures LastDot(front + ".") == |front|
  {}

  lemma CutAt(front: string, back: string)
    ensures (front + back)[..|front|] == front && (front + back)[|front|..] == back
  {}

  lemma NoExtensionOf(name: string, tail: string)
    requires LastDot(name) <= 0 && '.' !in tail
    ensures Base(name + tail) == name + tail && Extension(name + tail) == ""
  {
    LastDotThenNone(name, tail);
  }

  lemma CandidateParts(name: string, n: nat)
    ensures Candidate(name, n) == Base(name) + Numbered(n) + Extension(name)
    ensures Extension(Candidate(name, n)) == Extension(name)
    ensures Base(Candidate(name, n)) == Base(name) + Numbered(n)
  {
    var front, middle := Base(name) + Numbered(n), Numbered(n);
    assert Candidate(name, n) == front + Extension(name);
    NumberedPlain(n);
    if LastDot(name) > 0 {
      var tail := name[LastDot(name) + 1..];
      assert Extension(name) == "." + tail;
      assert front + Extension(name) == front + "." + tail;
      ExtensionOf(front, tail);
    } else {
      assert front + Extension(name) == name + middle;
      NoExtensionOf(name, middle);
    }
  }

  /** The number goes between base and extension, which both stay what they were. */
  lemma UniqueNameKeepsParts(name: string, existing: set<string>, result: string)
    requires name in existing && IsUniqueName(name, existing, result)
    ensures Extension(result) == Extension(name)
    ensures exists n :: LeastFree(name, existing, n) && Base(result) == Base(name) + Numbered(n)
    ensures '/' !in name ==> '/' !in result
  {
    var n: nat :| LeastFree(name, existing, n) && result == Candidate(name, n);
    CandidateParts(name, n);
    NumberedPlain(n);
    BaseAndExtension(name);
  }

  /** What the names look like: "report (2).txt", "notes (2)", ".profile (2)". */
  lemma CandidateShape(front: string, tail: string, n: nat)
    requires '.' !in tail
    ensures front != "" ==> Candidate(front + "." + tail, n) == front + " (" + Print(n, 10) + ")" + ("." + tail)
    ensures Candidate("." + tail, n) == "." + tail + " (" + Print(n, 10) + ")"
    ensures Candidate(tail, n) == tail + " (" + Print(n, 10) + ")"
  {
    if front != "" { ExtensionOf(front, tail); }
    NoExtension(tail, n);
    assert LastDot("." + tail) <= 0 by {
      LastDotThenNone(".", tail);
    }
    NoExtension("." + tail, n);
  }

  lemma NoExtension(name: string, n: nat)
    requires LastDot(name) <= 0
    ensures Candidate(name, n) == name + " (" + Print(n, 10) + ")"
  {}
}
