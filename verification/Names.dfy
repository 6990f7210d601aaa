// How node names may be typed (internal/identity/names.go): the parser of Echo
// against the characters it admits.
module Names {
  import opened Base
  import opened Echo

  /** The characters s[i..j], in lower case. */
  predicate Lowers(n: string, s: string, i: nat, j: nat) {
    i <= j <= |s| && |n| == j - i &&
    forall k | 0 <= k < |n| ::
      if 'A' <= s[i + k] <= 'Z' then n[k] as int - 'a' as int == s[i + k] as int - 'A' as int else n[k] == s[i + k]
  }

  predicate Blanks(s: string) {
    forall c | c in s :: c in " \t\n\r" || c as int in {11, 12}
  }

  lemma BlankIff(c: char)
    ensures Blank(c) <==> c in " \t\n\r" || c as int in {11, 12}
  {
  }

  lemma {:induction false} TrimLeftDrops(pre: string, t: string)
    requires Blanks(pre) && (t == [] || !Blank(t[0]))
    ensures TrimLeft(pre + t) == t
  {
    if pre == [] {
      assert pre + t == t;
    } else {
      BlankIff(pre[0]);
      assert pre[0] in pre && (pre + t)[1..] == pre[1..] + t;
      TrimLeftDrops(pre[1..], t);
    }
  }

  lemma {:induction false} TrimRightDrops(t: string, post: string)
    requires Blanks(post) && (t == [] || !Blank(t[|t| - 1]))
    ensures TrimRight(t + post) == t
  {
    if post == [] {
      assert t + post == t;
    } else {
      var front, last := post[..|post| - 1], post[|post| - 1];
      BlankIff(last);
      assert last in post && forall c | c in front :: c in post;
      TrimRightDrops(t, front);
      assert (t + post)[|t + post| - 1] == last && (t + post)[..|t + post| - 1] == t + front;
    }
  }

  lemma {:induction false} TrimmedLeft(s: string) returns (i: nat)
    ensures i <= |s| && Blanks(s[..i]) && TrimLeft(s) == s[i..]
  {
    i := 0;
    if s != [] && Blank(s[0]) {
      var k := TrimmedLeft(s[1..]);
      BlankIff(s[0]);
      i := k + 1;
      assert s[..i] == [s[0]] + s[1..][..k];
    }
  }

  lemma {:induction false} TrimmedRight(s: string) returns (j: nat)
    ensures j <= |s| && Blanks(s[j..]) && TrimRight(s) == s[..j]
  {
    j := |s|;
    if s != [] && Blank(s[|s| - 1]) {
      j := TrimmedRight(s[..|s| - 1]);
      BlankIff(s[|s| - 1]);
      assert s[j..] == s[..|s| - 1][j..] + [s[|s| - 1]];
    }
  }

  predicate Typed(s: string, n: string, i: nat, j: nat) {
    Lowers(n, s, i, j) && Blanks(s[..i]) && Blanks(s[j..])
  }

  lemma ValidNameIff(n: string)
    ensures ValidName(n) <==>
            && 1 <= |n| < 64 && n[0] in "abcdefghijklmnopqrstuvwxyz"
            && forall c | c in n :: c in "abcdefghijklmnopqrstuvwxyz0123456789-"
  {
    hide ValidName;
    forall k | 0 <= k < |n| {
      LetterIff(n[k]);
    }
    ValidNameMeans(n);
    if forall c | c in n :: c in "abcdefghijklmnopqrstuvwxyz0123456789-" {
      assert forall k | 0 <= k < |n| :: n[k] in n;
    }
  }

  lemma ValidNameMeans(n: string)
    ensures ValidName(n) <==>
            && 1 <= |n| < 64 && 'a' <= n[0] <= 'z'
            && forall k | 0 <= k < |n| :: 'a' <= n[k] <= 'z' || '0' <= n[k] <= '9' || n[k] == '-'
  {
  }

  lemma LetterIff(c: char)
    ensures 'a' <= c <= 'z' <==> c in "abcdefghijklmnopqrstuvwxyz"
    ensures 'a' <= c <= 'z' || '0' <= c <= '9' || c == '-' <==> c in "abcdefghijklmnopqrstuvwxyz0123456789-"
  {
  }

  /** What counts as a name, and how it may be typed: a letter and up to 62
      letters, digits and hyphens, in any case, with white space around. */
  lemma {:induction false} ParsesToIff(s: string, n: string)
    ensures ParseName(s) == Some(n) <==>
            && 1 <= |n| < 64 && n[0] in "abcdefghijklmnopqrstuvwxyz"
            && (forall c | c in n :: c in "abcdefghijklmnopqrstuvwxyz0123456789-")
            && exists i: nat, j: nat :: Typed(s, n, i, j)
  {
    ValidNameIff(n);
    if ParseName(s) == Some(n) {
      var i := TrimmedLeft(s);
      var k := TrimmedRight(s[i..]);
      assert s[i..][k..] == s[i + k..];
      assert Typed(s, n, i, i + k);
    }
    if ValidName(n) {
      if i: nat, j: nat :| Typed(s, n, i, j) {
        TypedParses(s, n, i, j);
      }
    }
  }

  lemma NotBlank(s: string, n: string, i: nat, j: nat, k: nat)
    requires ValidName(n) && Lowers(n, s, i, j) && k < |n|
    ensures !Blank(s[i + k]) && Lower(s[i + k]) == n[k]
  {
    var c := s[i + k];
    assert if 'A' <= c <= 'Z' then n[k] as int - 'a' as int == c as int - 'A' as int else n[k] == c;
    ValidNameMeans(n);
    if 'A' <= c <= 'Z' {
      assert Lower(c) as int == n[k] as int;
    }
  }

  lemma {:induction false} TypedParses(s: string, n: string, i: nat, j: nat)
    requires ValidName(n) && Typed(s, n, i, j)
    ensures ParseName(s) == Some(n)
  {
    var t := s[i..j];
    NotBlank(s, n, i, j, 0);
    NotBlank(s, n, i, j, |n| - 1);
    assert t[0] == s[i] && t[|t| - 1] == s[i + (|n| - 1)];
    assert s == s[..i] + (t + s[j..]);
    TrimLeftDrops(s[..i], t + s[j..]);
    TrimRightDrops(t, s[j..]);
    assert seq(|t|, k requires 0 <= k < |t| => Lower(t[k])) == n by {
      forall k | 0 <= k < |t| ensures Lower(t[k]) == n[k] {
        NotBlank(s, n, i, j, k);
      }
    }
  }
}
