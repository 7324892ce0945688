/** The regular expression matcher of user/grep.c: ^ . * $ and, with -i, letters of either case.
    Strings are without their terminating 0. */
module Grep {
  import opened Wrappers

  function ToLower(c: char): (r: char) { if 'A' <= c <= 'Z' then c + 32 as char else c }

  function LowerAll(s: string): (r: string)
    ensures |r| == |s| && forall i :: 0 <= i < |s| ==> r[i] == ToLower(s[i])
  {
    if s == "" then "" else [ToLower(s[0])] + LowerAll(s[1..])
  }

  predicate Same(c: char, t: char, ic: bool) { if ic then ToLower(c) == ToLower(t) else c == t }

  /** Pattern character `c` fits text character `t`. */
  predicate Fits(c: char, t: char, ic: bool) { c == '.' || Same(c, t, ic) }

  predicate IsStar(re: string) { |re| >= 2 && re[1] == '*' }

  // ---- What a pattern means ------------------------------------------------------------------------

  /** The first `k` characters all fit `c`. */
  ghost predicate AllFit(c: char, text: string, k: nat, ic: bool) {
    k <= |text| && forall j :: 0 <= j < k ==> Fits(c, text[j], ic)
  }

  /** `re` matches some beginning of `text`. */
  ghost predicate Means(re: string, text: string, ic: bool)
    decreases |re|, 0
  {
    if re == "" then true
    else if IsStar(re) then StarMeans(re[0], re[2..], text, ic)
    else if re == "$" then text == ""
    else text != "" && Fits(re[0], text[0], ic) && Means(re[1..], text[1..], ic)
  }

  /** Zero or more characters that fit `c`, then `re`. */
  ghost predicate StarMeans(c: char, re: string, text: string, ic: bool)
    decreases |re|, 1
  {
    exists k :: 0 <= k <= |text| && AllFit(c, text, k, ic) && Means(re, text[k..], ic)
  }

  /** `re` matches somewhere in `text`. */
  ghost predicate Matches(re: string, text: string, ic: bool) {
    if re != "" && re[0] == '^' then Means(re[1..], text, ic)
    else exists i :: 0 <= i <= |text| && Means(re, text[i..], ic)
  }

  /** A star either stops here or takes one more character. */
  lemma StarUnrolls(c: char, re: string, text: string, ic: bool)
    ensures StarMeans(c, re, text, ic) <==>
              Means(re, text, ic) || (text != "" && Fits(c, text[0], ic) && StarMeans(c, re, text[1..], ic))
  {
    assert text[0..] == text;
    if StarMeans(c, re, text, ic) {
      var k :| 0 <= k <= |text| && AllFit(c, text, k, ic) && Means(re, text[k..], ic);
      if k > 0 {
        assert text[1..][k - 1..] == text[k..];
        assert AllFit(c, text[1..], k - 1, ic);
      }
    }
    if Means(re, text, ic) {
      assert AllFit(c, text, 0, ic);
    }
    if text != "" && Fits(c, text[0], ic) && StarMeans(c, re, text[1..], ic) {
      var k :| 0 <= k <= |text[1..]| && AllFit(c, text[1..], k, ic) && Means(re, text[1..][k..], ic);
      assert text[1..][k..] == text[k + 1..];
      forall j | 0 <= j < k + 1 ensures Fits(c, text[j], ic) {
        assert j > 0 ==> text[j] == text[1..][j - 1];
      }
      assert AllFit(c, text, k + 1, ic);
    }
  }

  // ---- The code, step by step ----------------------------------------------------------------------

  /** matchhere(), with at most `n` calls and iterations; `None` if that is not enough. */
  function RunHere(re: string, text: string, ic: bool, n: nat): (r: Option<bool>)
    decreases n
  {
    if n == 0 then None
    else if re == "" then Some(true)
    else if IsStar(re) then RunStar(re[0], re[2..], text, ic, n - 1)
    else if re == "$" then Some(text == "")
    else if text != "" && (re[0] == '.' || Same(re[0], text[0], ic)) then RunHere(re[1..], text[1..], ic, n - 1)
    else Some(false)
  }

  /** matchstar(): for `c == '.'` the condition of its loop does not advance the text. */
  function RunStar(c: char, re: string, text: string, ic: bool, n: nat): (r: Option<bool>)
    decreases n
  {
    if n == 0 then None
    else
      match RunHere(re, text, ic, n - 1)
      case None => None
      case Some(true) => Some(true)
      case Some(false) =>
        if text == "" then Some(false)
        else if c == '.' then RunStar(c, re, text, ic, n - 1)
        else if Same(c, text[0], ic) then RunStar(c, re, text[1..], ic, n - 1)
        else Some(false)
  }

  /** The loop of match(). */
  function RunSearch(re: string, text: string, ic: bool, n: nat): (r: Option<bool>)
    decreases n
  {
    if n == 0 then None
    else
      match RunHere(re, text, ic, n - 1)
      case None => None
      case Some(true) => Some(true)
      case Some(false) => if text == "" then Some(false) else RunSearch(re, text[1..], ic, n - 1)
  }

  function RunMatch(re: string, text: string, ic: bool, n: nat): (r: Option<bool>) {
    if re != "" && re[0] == '^' then RunHere(re[1..], text, ic, n) else RunSearch(re, text, ic, n)
  }

  /** More fuel does not change an answer. */
  lemma {:induction false} HereMore(re: string, text: string, ic: bool, n: nat, n': nat)
    requires RunHere(re, text, ic, n).Some? && n <= n'
    ensures RunHere(re, text, ic, n') == RunHere(re, text, ic, n)
    decreases n
  {
    if re != "" {
      if IsStar(re) {
        StarMore(re[0], re[2..], text, ic, n - 1, n' - 1);
      } else if re != "$" && text != "" && (re[0] == '.' || Same(re[0], text[0], ic)) {
        HereMore(re[1..], text[1..], ic, n - 1, n' - 1);
      }
    }
  }

  lemma {:induction false} StarMore(c: char, re: string, text: string, ic: bool, n: nat, n': nat)
    requires RunStar(c, re, text, ic, n).Some? && n <= n'
    ensures RunStar(c, re, text, ic, n') == RunStar(c, re, text, ic, n)
    decreases n
  {
    HereMore(re, text, ic, n - 1, n' - 1);
    if RunHere(re, text, ic, n - 1) == Some(false) && text != "" {
      if c == '.' {
        StarMore(c, re, text, ic, n - 1, n' - 1);
      } else if Same(c, text[0], ic) {
        StarMore(c, re, text[1..], ic, n - 1, n' - 1);
      }
    }
  }

  lemma {:induction false} SearchMore(re: string, text: string, ic: bool, n: nat, n': nat)
    requires RunSearch(re, text, ic, n).Some? && n <= n'
    ensures RunSearch(re, text, ic, n') == RunSearch(re, text, ic, n)
    decreases n
  {
    HereMore(re, text, ic, n - 1, n' - 1);
    if RunHere(re, text, ic, n - 1) == Some(false) && text != "" {
      SearchMore(re, text[1..], ic, n - 1, n' - 1);
    }
  }

  // ---- When the code does not return ---------------------------------------------------------------

  /** matchhere() gets to a `.*` with text left that the rest of the pattern does not match. */
  ghost predicate Stalls(re: string, text: string, ic: bool)
    decreases |re|, |text|, 0
  {
    if re == "" then false
    else if IsStar(re) then StarStalls(re[0], re[2..], text, ic)
    else if re == "$" then false
    else text != "" && Fits(re[0], text[0], ic) && Stalls(re[1..], text[1..], ic)
  }

  ghost predicate StarStalls(c: char, re: string, text: string, ic: bool)
    decreases |re|, |text|, 1
  {
    || Stalls(re, text, ic)
    || (!Means(re, text, ic) && text != "" && (c == '.' || (Same(c, text[0], ic) && StarStalls(c, re, text[1..], ic))))
  }

  ghost predicate SearchStalls(re: string, text: string, ic: bool)
    decreases |text|
  {
    Stalls(re, text, ic) || (!Means(re, text, ic) && text != "" && SearchStalls(re, text[1..], ic))
  }

  ghost predicate MatchStalls(re: string, text: string, ic: bool) {
    if re != "" && re[0] == '^' then Stalls(re[1..], text, ic) else SearchStalls(re, text, ic)
  }

  /** Where it does not stall, matchhere() returns, and returns what the pattern means. */
  lemma {:induction false} HereReturns(re: string, text: string, ic: bool) returns (n: nat)
    requires !Stalls(re, text, ic)
    ensures RunHere(re, text, ic, n) == Some(Means(re, text, ic))
    decreases |re|, |text|, 0
  {
    n := 1;
    if re != "" {
      if IsStar(re) {
        n := StarReturns(re[0], re[2..], text, ic);
        n := n + 1;
      } else if re != "$" && text != "" && Fits(re[0], text[0], ic) {
        n := HereReturns(re[1..], text[1..], ic);
        n := n + 1;
      }
    }
  }

  lemma {:induction false} StarReturns(c: char, re: string, text: string, ic: bool) returns (n: nat)
    requires !StarStalls(c, re, text, ic)
    ensures RunStar(c, re, text, ic, n) == Some(StarMeans(c, re, text, ic))
    decreases |re|, |text|, 1
  {
    StarUnrolls(c, re, text, ic);
    var n1 := HereReturns(re, text, ic);
    n := n1 + 1;
    if !Means(re, text, ic) && text != "" && Same(c, text[0], ic) {
      var n2 := StarReturns(c, re, text[1..], ic);
      n := n1 + n2 + 1;
      HereMore(re, text, ic, n1, n1 + n2);
      StarMore(c, re, text[1..], ic, n2, n1 + n2);
    }
  }

  lemma {:induction false} SearchReturns(re: string, text: string, ic: bool) returns (n: nat)
    requires !SearchStalls(re, text, ic)
    ensures RunSearch(re, text, ic, n) == Some(exists i :: 0 <= i <= |text| && Means(re, text[i..], ic))
    decreases |text|
  {
    SearchUnrolls(re, text, ic);
    var n1 := HereReturns(re, text, ic);
    n := n1 + 1;
    if !Means(re, text, ic) && text != "" {
      var n2 := SearchReturns(re, text[1..], ic);
      n := n1 + n2 + 1;
      HereMore(re, text, ic, n1, n1 + n2);
      SearchMore(re, text[1..], ic, n2, n1 + n2);
    }
  }

  lemma SearchUnrolls(re: string, text: string, ic: bool)
    ensures (exists i :: 0 <= i <= |text| && Means(re, text[i..], ic)) <==>
              Means(re, text, ic) || (text != "" && exists i :: 0 <= i <= |text[1..]| && Means(re, text[1..][i..], ic))
  {
    assert text[0..] == text;
    if i :| 0 <= i <= |text| && Means(re, text[i..], ic) {
      if i > 0 {
        assert text[1..][i - 1..] == text[i..];
      }
    }
    if text != "" {
      forall i | 0 <= i <= |text[1..]| && Means(re, text[1..][i..], ic)
        ensures exists j :: 0 <= j <= |text| && Means(re, text[j..], ic)
      {
        assert text[1..][i..] == text[i + 1..];
      }
    }
  }

  /** Where it stalls, it does not return, however long it runs. */
  lemma {:induction false} HereStalls(re: string, text: string, ic: bool, n: nat)
    requires Stalls(re, text, ic)
    ensures RunHere(re, text, ic, n).None?
    decreases n
  {
    if n > 0 {
      if IsStar(re) {
        StarStallsToo(re[0], re[2..], text, ic, n - 1);
      } else {
        HereStalls(re[1..], text[1..], ic, n - 1);
      }
    }
  }

  lemma {:induction false} StarStallsToo(c: char, re: string, text: string, ic: bool, n: nat)
    requires StarStalls(c, re, text, ic)
    ensures RunStar(c, re, text, ic, n).None?
    decreases n
  {
    if n > 0 {
      if Stalls(re, text, ic) {
        HereStalls(re, text, ic, n - 1);
      } else {
        Answer(re, text, ic, n - 1);
        if c == '.' {
          StarStallsToo(c, re, text, ic, n - 1);
        } else {
          StarStallsToo(c, re, text[1..], ic, n - 1);
        }
      }
    }
  }

  /** Any answer of matchhere() is the right one. */
  lemma Answer(re: string, text: string, ic: bool, n: nat)
    requires !Stalls(re, text, ic)
    ensures RunHere(re, text, ic, n).Some? ==> RunHere(re, text, ic, n) == Some(Means(re, text, ic))
  {
    if RunHere(re, text, ic, n).Some? {
      var m := HereReturns(re, text, ic);
      HereMore(re, text, ic, n, n + m);
      HereMore(re, text, ic, m, n + m);
    }
  }

  lemma {:induction false} SearchStallsToo(re: string, text: string, ic: bool, n: nat)
    requires SearchStalls(re, text, ic)
    ensures RunSearch(re, text, ic, n).None?
    decreases n
  {
    if n > 0 {
      if Stalls(re, text, ic) {
        HereStalls(re, text, ic, n - 1);
      } else {
        Answer(re, text, ic, n - 1);
        SearchStallsToo(re, text[1..], ic, n - 1);
      }
    }
  }

  /** match() returns exactly when it does not stall, and what it returns is whether the pattern
      matches somewhere. */
  lemma MatchIsExact(re: string, text: string, ic: bool, b: bool)
    ensures (exists n: nat :: RunMatch(re, text, ic, n) == Some(b)) <==>
              !MatchStalls(re, text, ic) && b == Matches(re, text, ic)
  {
    if MatchStalls(re, text, ic) {
      forall n: nat ensures RunMatch(re, text, ic, n).None? {
        if re != "" && re[0] == '^' {
          HereStalls(re[1..], text, ic, n);
        } else {
          SearchStallsToo(re, text, ic, n);
        }
      }
    } else {
      var m := MatchReturns(re, text, ic);
      forall n: nat ensures RunMatch(re, text, ic, n).Some? ==> RunMatch(re, text, ic, n) == RunMatch(re, text, ic, m) {
        if RunMatch(re, text, ic, n).Some? {
          MatchMore(re, text, ic, n, n + m);
          MatchMore(re, text, ic, m, n + m);
        }
      }
    }
  }

  lemma MatchReturns(re: string, text: string, ic: bool) returns (n: nat)
    requires !MatchStalls(re, text, ic)
    ensures RunMatch(re, text, ic, n) == Some(Matches(re, text, ic))
  {
    if re != "" && re[0] == '^' {
      n := HereReturns(re[1..], text, ic);
    } else {
      n := SearchReturns(re, text, ic);
    }
  }

  lemma MatchMore(re: string, text: string, ic: bool, n: nat, n': nat)
    requires RunMatch(re, text, ic, n).Some? && n <= n'
    ensures RunMatch(re, text, ic, n') == RunMatch(re, text, ic, n)
  {
    if re != "" && re[0] == '^' {
      HereMore(re[1..], text, ic, n, n');
    } else {
      SearchMore(re, text, ic, n, n');
    }
  }

  /** `.*b` matches "ab", and does not match "a", but match() returns on neither. */
  lemma DotStarDoesNotReturn(n: nat)
    ensures Matches(".*b", "ab", false) && RunMatch(".*b", "ab", false, n).None?
    ensures !Matches(".*b", "a", false) && RunMatch(".*b", "a", false, n).None?
  {
    DotStarB("ab");
    DotStarB("a");
    DotStarB("");
    JustB("ab");
    JustB("a");
    JustB("b");
    JustB("");
    hide Means, Stalls;
    assert "ab"[1..] == "b" && "a"[1..] == "" && "ab"[0..] == "ab" && "a"[0..] == "a";
    StarUnrolls('.', "b", "ab", false);
    StarUnrolls('.', "b", "b", false);
    StarUnrolls('.', "b", "a", false);
    StarUnrolls('.', "b", "", false);
    hide StarMeans;
    assert Means(".*b", "ab"[0..], false);
    forall i | 0 <= i <= |"a"| ensures !Means(".*b", "a"[i..], false) {
      assert i == 1 ==> "a"[i..] == "";
    }
    SearchStallsToo(".*b", "ab", false, n);
    SearchStallsToo(".*b", "a", false, n);
  }

  lemma DotStarB(text: string)
    ensures Means(".*b", text, false) == StarMeans('.', "b", text, false)
    ensures text != "" && !Means("b", text, false) ==> Stalls(".*b", text, false)
  {
    assert ".*b"[2..] == "b";
  }

  lemma JustB(text: string)
    ensures Means("b", text, false) <==> text != "" && text[0] == 'b'
  {
    assert "b"[1..] == "";
  }

  // ---- Patterns without `.*` -----------------------------------------------------------------------

  predicate HasDotStar(re: string) {
    if re == "" then false
    else if IsStar(re) then re[0] == '.' || HasDotStar(re[2..])
    else HasDotStar(re[1..])
  }

  lemma {:induction false} NeverStalls(re: string, text: string, ic: bool)
    requires !HasDotStar(re)
    ensures !Stalls(re, text, ic)
    decreases |re|, |text|, 0
  {
    if re != "" {
      if IsStar(re) {
        StarNeverStalls(re[0], re[2..], text, ic);
      } else if re != "$" && text != "" {
        NeverStalls(re[1..], text[1..], ic);
      }
    }
  }

  lemma {:induction false} StarNeverStalls(c: char, re: string, text: string, ic: bool)
    requires c != '.' && !HasDotStar(re)
    ensures !StarStalls(c, re, text, ic)
    decreases |re|, |text|, 1
  {
    NeverStalls(re, text, ic);
    if text != "" {
      StarNeverStalls(c, re, text[1..], ic);
    }
  }

  lemma {:induction false} SearchNeverStalls(re: string, text: string, ic: bool)
    requires !HasDotStar(re)
    ensures !SearchStalls(re, text, ic)
    decreases |text|
  {
    NeverStalls(re, text, ic);
    if text != "" {
      SearchNeverStalls(re, text[1..], ic);
    }
  }

  /** For every pattern without `.*` and every text, match() returns, and returns 1 exactly when the
      pattern matches somewhere. */
  lemma MatchIsRight(re: string, text: string, ic: bool) returns (n: nat)
    requires !HasDotStar(if re != "" && re[0] == '^' then re[1..] else re)
    ensures RunMatch(re, text, ic, n) == Some(Matches(re, text, ic))
  {
    if re != "" && re[0] == '^' {
      NeverStalls(re[1..], text, ic);
    } else {
      SearchNeverStalls(re, text, ic);
    }
    n := MatchReturns(re, text, ic);
  }

  // ---- Upper and lower case ------------------------------------------------------------------------

  lemma LowerPattern(re: string)
    ensures IsStar(LowerAll(re)) == IsStar(re) && (LowerAll(re) == "$" <==> re == "$") &&
            (LowerAll(re) == "" <==> re == "")
    ensures re != "" ==> (LowerAll(re)[0] == '^' <==> re[0] == '^') && LowerAll(re)[1..] == LowerAll(re[1..])
    ensures |re| >= 2 ==> LowerAll(re)[2..] == LowerAll(re[2..])
  {
  }

  lemma {:induction false} HereLower(re: string, text: string, n: nat)
    ensures RunHere(re, text, true, n) == RunHere(LowerAll(re), LowerAll(text), false, n)
    decreases n
  {
    LowerPattern(re);
    LowerPattern(text);
    if n > 0 && re != "" {
      if IsStar(re) {
        StarLower(re[0], re[2..], text, n - 1);
      } else if re != "$" && text != "" && (re[0] == '.' || Same(re[0], text[0], true)) {
        HereLower(re[1..], text[1..], n - 1);
      }
    }
  }

  lemma {:induction false} StarLower(c: char, re: string, text: string, n: nat)
    ensures RunStar(c, re, text, true, n) == RunStar(ToLower(c), LowerAll(re), LowerAll(text), false, n)
    decreases n
  {
    LowerPattern(text);
    if n > 0 {
      HereLower(re, text, n - 1);
      if RunHere(re, text, true, n - 1) == Some(false) && text != "" {
        StarLower(c, re, text, n - 1);
        StarLower(c, re, text[1..], n - 1);
      }
    }
  }

  lemma {:induction false} SearchLower(re: string, text: string, n: nat)
    ensures RunSearch(re, text, true, n) == RunSearch(LowerAll(re), LowerAll(text), false, n)
    decreases n
  {
    LowerPattern(text);
    if n > 0 {
      HereLower(re, text, n - 1);
      if RunHere(re, text, true, n - 1) == Some(false) && text != "" {
        SearchLower(re, text[1..], n - 1);
      }
    }
  }

  /** With -i, match() does step for step what it does without on pattern and text in lower case. */
  lemma IgnoreCase(re: string, text: string, n: nat)
    ensures RunMatch(re, text, true, n) == RunMatch(LowerAll(re), LowerAll(text), false, n)
  {
    LowerPattern(re);
    if re != "" && re[0] == '^' {
      HereLower(re[1..], text, n);
    } else {
      SearchLower(re, text, n);
    }
  }

  // ---- What -i ignores -------------------------------------------------------------------------------

  const UPPER: string := "ABCDEFGHIJKLMNOPQRSTUVWXYZ"
  const LOWER: string := "abcdefghijklmnopqrstuvwxyz"

  /** The same letter, once in upper and once in lower case. */
  ghost predicate Cases(c: char, t: char) {
    exists k :: 0 <= k < |UPPER| && k < |LOWER| && UPPER[k] == c && LOWER[k] == t
  }

  ghost predicate SameLetter(c: char, t: char) { c == t || Cases(c, t) || Cases(t, c) }

  lemma Alphabet(k: nat)
    requires k < 26
    ensures |UPPER| == |LOWER| == 26 && UPPER[k] as int == 65 + k && LOWER[k] as int == 97 + k
  {
  }

  lemma CasesAre(c: char, t: char)
    ensures Cases(c, t) <==> 'A' <= c <= 'Z' && t as int == c as int + 32
  {
    if Cases(c, t) {
      var k :| 0 <= k < |UPPER| && k < |LOWER| && UPPER[k] == c && LOWER[k] == t;
      Alphabet(k);
    }
    if 'A' <= c <= 'Z' && t as int == c as int + 32 {
      Alphabet(c as int - 65);
    }
  }

  /** With -i two characters are the same exactly if they are the same letter. */
  lemma SameIsSameLetter(c: char, t: char)
    ensures Same(c, t, true) <==> SameLetter(c, t)
  {
    CasesAre(c, t);
    CasesAre(t, c);
  }

  /** The two strings differ in the case of letters at most. */
  ghost predicate SameLetters(s: string, s': string) {
    |s| == |s'| && forall i :: 0 <= i < |s| ==> SameLetter(s[i], s'[i])
  }

  lemma SameLower(s: string, s': string)
    requires SameLetters(s, s')
    ensures LowerAll(s) == LowerAll(s')
  {
    forall i | 0 <= i < |s| ensures LowerAll(s)[i] == LowerAll(s')[i] {
      SameIsSameLetter(s[i], s'[i]);
    }
  }

  lemma {:induction false} MeansLower(re: string, text: string)
    ensures Means(re, text, true) == Means(LowerAll(re), LowerAll(text), false)
    decreases |re|
  {
    LowerPattern(re);
    LowerPattern(text);
    if IsStar(re) {
      forall k | 0 <= k <= |text|
        ensures AllFit(re[0], text, k, true) == AllFit(ToLower(re[0]), LowerAll(text), k, false)
        ensures Means(re[2..], text[k..], true) == Means(LowerAll(re[2..]), LowerAll(text)[k..], false)
      {
        MeansLower(re[2..], text[k..]);
        assert LowerAll(text)[k..] == LowerAll(text[k..]);
      }
    } else if re != "" && text != "" {
      MeansLower(re[1..], text[1..]);
    }
  }

  lemma MatchesLower(re: string, text: string)
    ensures Matches(re, text, true) == Matches(LowerAll(re), LowerAll(text), false)
  {
    LowerPattern(re);
    if re != "" && re[0] == '^' {
      MeansLower(re[1..], text);
    } else {
      forall i | 0 <= i <= |text|
        ensures Means(re, text[i..], true) == Means(LowerAll(re), LowerAll(text)[i..], false)
      {
        MeansLower(re, text[i..]);
        assert LowerAll(text)[i..] == LowerAll(text[i..]);
      }
    }
  }

  /** With -i, changing the case of any letters of pattern and text changes neither whether match()
      returns nor what it returns, nor what the pattern means. */
  lemma CaseDoesNotMatter(re: string, re': string, text: string, text': string)
    requires SameLetters(re, re') && SameLetters(text, text')
    ensures forall n: nat :: RunMatch(re, text, true, n) == RunMatch(re', text', true, n)
    ensures MatchStalls(re, text, true) == MatchStalls(re', text', true)
    ensures Matches(re, text, true) == Matches(re', text', true)
  {
    hide *;
    SameLower(re, re');
    SameLower(text, text');
    MatchesLower(re, text);
    MatchesLower(re', text');
    forall n: nat ensures RunMatch(re, text, true, n) == RunMatch(re', text', true, n) {
      IgnoreCase(re, text, n);
      IgnoreCase(re', text', n);
    }
    MatchIsExact(re, text, true, Matches(re, text, true));
    MatchIsExact(re', text', true, Matches(re, text, true));
  }

  // ---- The code with its loops, where it returns ---------------------------------------------------

  method MatchHere(re: string, text: string, ic: bool) returns (r: bool)
    requires !Stalls(re, text, ic)
    ensures r == Means(re, text, ic)
    decreases |re|, |text|, 0
  {
    if re == "" {
      return true;
    }
    if IsStar(re) {
      r := MatchStar(re[0], re[2..], text, ic);
      return;
    }
    if re == "$" {
      return text == "";
    }
    if text != "" && (re[0] == '.' || Same(re[0], text[0], ic)) {
      r := MatchHere(re[1..], text[1..], ic);
      return;
    }
    return false;
  }

  method MatchStar(c: char, re: string, text: string, ic: bool) returns (r: bool)
    requires !StarStalls(c, re, text, ic)
    ensures r == StarMeans(c, re, text, ic)
    decreases |re|, |text|, 1
  {
    var t := text;
    while true
      invariant |t| <= |text| && !StarStalls(c, re, t, ic) && (StarMeans(c, re, text, ic) <==> StarMeans(c, re, t, ic))
      decreases |t|
    {
      StarUnrolls(c, re, t, ic);
      r := MatchHere(re, t, ic);
      if r || t == "" {
        return;
      }
      if c == '.' {
        assert false;
      }
      if !Same(c, t[0], ic) {
        return;
      }
      t := t[1..];
    }
  }

  /** match(), on the inputs on which it returns. */
  method Match(re: string, text: string, ic: bool) returns (r: bool)
    requires !MatchStalls(re, text, ic)
    ensures r == Matches(re, text, ic)
  {
    if re != "" && re[0] == '^' {
      r := MatchHere(re[1..], text, ic);
      return;
    }
    var t := text;
    while true
      invariant |t| <= |text| && !SearchStalls(re, t, ic)
      invariant (exists i :: 0 <= i <= |text| && Means(re, text[i..], ic)) <==>
                  (exists i :: 0 <= i <= |t| && Means(re, t[i..], ic))
      decreases |t|
    {
      SearchUnrolls(re, t, ic);
      r := MatchHere(re, t, ic);
      if r || t == "" {
        return;
      }
      t := t[1..];
    }
  }
}
