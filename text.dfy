/** String helpers with Python's str semantics: whitespace as str.isspace()
    sees it, strip(), the `in` substring test and an ASCII lower(). */
module Text {

  datatype Option<T> = None | Some(value: T)

  /** The characters for which Python's str.isspace() holds; the regular
      expression class `\s` and argument-less strip() use the same set. */
  predicate IsSpace(c: char)
  {
    || ('\U{9}' <= c <= '\U{D}')
    || ('\U{1C}' <= c <= '\U{20}')
    || c == '\U{85}' || c == '\U{A0}' || c == '\U{1680}'
    || ('\U{2000}' <= c <= '\U{200A}')
    || c == '\U{2028}' || c == '\U{2029}' || c == '\U{202F}'
    || c == '\U{205F}' || c == '\U{3000}'
  }

  /** `pat` occurs in `s` at position `i`. */
  predicate StartsAt(s: string, i: int, pat: string)
  {
    0 <= i && i + |pat| <= |s| && s[i..i + |pat|] == pat
  }

  /** Python's `pat in s`. */
  predicate Contains(s: string, pat: string)
  {
    exists i :: 0 <= i <= |s| && StartsAt(s, i, pat)
  }

  predicate EndsWith(s: string, suffix: string)
  {
    |suffix| <= |s| && s[|s| - |suffix|..] == suffix
  }

  /** Python's `s[:-1]`: the last character removed, and "" stays "". */
  function DropLast(s: string): (r: string)
    ensures |s| > 0 ==> |r| == |s| - 1 && s == r + [s[|s| - 1]]
    ensures |s| == 0 ==> r == s
  {
    if |s| == 0 then s else s[..|s| - 1]
  }

  function LStrip(s: string): (r: string)
    decreases |s|
  {
    if |s| > 0 && IsSpace(s[0]) then LStrip(s[1..]) else s
  }

  function RStrip(s: string): (r: string)
    decreases |s|
  {
    if |s| > 0 && IsSpace(s[|s| - 1]) then RStrip(s[..|s| - 1]) else s
  }

  /** `line.lstrip().rstrip().startswith('#')`. */
  predicate IsCommentLine(line: string)
  {
    var t := RStrip(LStrip(line));
    |t| > 0 && t[0] == '#'
  }

  function LowerChar(c: char): char
  {
    if 'A' <= c <= 'Z' then (c as int + 32) as char else c
  }

  /** str.lower(), restricted to the ASCII letters. */
  function Lower(s: string): (r: string)
    ensures |r| == |s|
    ensures forall i :: 0 <= i < |s| ==> r[i] == LowerChar(s[i])
  {
    seq(|s|, i requires 0 <= i < |s| => LowerChar(s[i]))
  }

  /** Lowering twice is lowering once: the result holds no ASCII capital,
      and a lowered text is left alone. */
  lemma LowerIdempotent(s: string)
    ensures forall i :: 0 <= i < |Lower(s)| ==> !('A' <= Lower(s)[i] <= 'Z')
    ensures Lower(Lower(s)) == Lower(s)
  {
    forall i | 0 <= i < |s| ensures LowerChar(LowerChar(s[i])) == LowerChar(s[i]) {
      var c := s[i];
      if 'A' <= c <= 'Z' {
        assert !('A' <= LowerChar(c) <= 'Z');
      }
    }
  }

  /** LStrip removes exactly the leading run of whitespace. */
  lemma {:induction false} LStripSuffix(s: string)
    ensures |LStrip(s)| <= |s|
    ensures LStrip(s) == s[|s| - |LStrip(s)|..]
    ensures forall j :: 0 <= j < |s| - |LStrip(s)| ==> IsSpace(s[j])
    ensures |LStrip(s)| > 0 ==> !IsSpace(LStrip(s)[0])
    decreases |s|
  {
    if |s| > 0 && IsSpace(s[0]) {
      LStripSuffix(s[1..]);
      assert LStrip(s) == LStrip(s[1..]);
      forall j | 0 <= j < |s| - |LStrip(s)|
        ensures IsSpace(s[j])
      {
        if j > 0 {
          assert s[j] == s[1..][j - 1];
        }
      }
    }
  }

  /** RStrip keeps a non-whitespace first character. */
  lemma {:induction false} RStripKeepsHead(t: string)
    requires |t| > 0 && !IsSpace(t[0])
    ensures |RStrip(t)| > 0 && RStrip(t)[0] == t[0]
    decreases |t|
  {
    if IsSpace(t[|t| - 1]) {
      assert |t| > 1;
      RStripKeepsHead(t[..|t| - 1]);
    }
  }

  /** A line is a comment exactly when its first non-whitespace character is '#'. */
  lemma CommentLineIff(line: string)
    ensures IsCommentLine(line) <==>
      exists k :: 0 <= k < |line| && line[k] == '#' && (forall j :: 0 <= j < k ==> IsSpace(line[j]))
  {
    var t := LStrip(line);
    LStripSuffix(line);
    var k0 := |line| - |t|;
    if |t| > 0 {
      RStripKeepsHead(t);
      assert t[0] == line[k0];
    } else {
      assert RStrip(t) == t;
    }
  }

  /** A substring of a substring is a substring (`in` is transitive). */
  lemma ContainsTrans(s: string, mid: string, pat: string)
    requires Contains(s, mid) && Contains(mid, pat)
    ensures Contains(s, pat)
  {
    var i :| 0 <= i <= |s| && StartsAt(s, i, mid);
    var j :| 0 <= j <= |mid| && StartsAt(mid, j, pat);
    assert mid == s[i..i + |mid|];
    forall t | 0 <= t < |pat|
      ensures s[i + j + t] == pat[t]
    {
      assert pat[t] == mid[j + t];
    }
    assert StartsAt(s, i + j, pat);
  }
}
