/** The link extractor behind ScrapeMapper.regex_links: the regular expression
    `(?:http.*?)(?=($|\n|\r\n|\r|\s|"|\[/URL]|']\[|]\[|\[/img]))` run with
    re.finditer, written out as a scanner, followed by `.replace(".md.", ".")`
    on every match. */
module Links {
  import opened Text

  /** The lookahead of the pattern holds at `p`: end of input, whitespace, a
      double quote, or one of the markup tokens `[/URL]`, `'][`, `][`, `[/img]`. */
  predicate EndsSpanAt(s: string, p: nat)
    requires p <= |s|
  {
    || p == |s|
    || IsSpace(s[p])
    || s[p] == '"'
    || StartsAt(s, p, "[/URL]")
    || StartsAt(s, p, "'][")
    || StartsAt(s, p, "][")
    || StartsAt(s, p, "[/img]")
  }

  /** Where the lazy `.*?` stops: the first position from `p` on at which the
      lookahead holds (SpanEndFirst). */
  function SpanEnd(s: string, p: nat): (r: nat)
    requires p <= |s|
    ensures p <= r <= |s|
    decreases |s| - p
  {
    if EndsSpanAt(s, p) then p else SpanEnd(s, p + 1)
  }

  /** SpanEnd is the first position at which the lookahead holds. */
  lemma {:induction false} SpanEndFirst(s: string, p: nat)
    requires p <= |s|
    ensures EndsSpanAt(s, SpanEnd(s, p))
    ensures forall q :: p <= q < SpanEnd(s, p) ==> !EndsSpanAt(s, q)
    decreases |s| - p
  {
    if !EndsSpanAt(s, p) {
      SpanEndFirst(s, p + 1);
    }
  }

  /** Where re.finditer, resuming its search at `i`, finds the next `http`;
      |s| when there is none (NextHttpFirst). */
  function NextHttp(s: string, i: nat): (r: nat)
    requires i <= |s|
    ensures i <= r <= |s|
    ensures r < |s| ==> StartsAt(s, r, "http")
    decreases |s| - i
  {
    if i == |s| then i else if StartsAt(s, i, "http") then i else NextHttp(s, i + 1)
  }

  /** No `http` is passed over on the way to NextHttp. */
  lemma {:induction false} NextHttpFirst(s: string, i: nat)
    requires i <= |s|
    ensures forall q :: i <= q < NextHttp(s, i) ==> !StartsAt(s, q, "http")
    decreases |s| - i
  {
    if i < |s| && !StartsAt(s, i, "http") {
      NextHttpFirst(s, i + 1);
    }
  }

  /** The (start, end) positions of the matches re.finditer reports when it
      starts searching at `i`. */
  function Spans(s: string, i: nat): seq<(nat, nat)>
    requires i <= |s|
    decreases |s| - i
  {
    var st := NextHttp(s, i);
    if st == |s| then []
    else
      var e := SpanEnd(s, st + 4);
      [(st, e)] + Spans(s, e)
  }

  /** `str.replace(".md.", ".")`: leftmost occurrences first, never overlapping. */
  function ReplaceMd(s: string): string
    decreases |s|
  {
    if |s| == 0 then []
    else if StartsAt(s, 0, ".md.") then "." + ReplaceMd(s[4..])
    else [s[0]] + ReplaceMd(s[1..])
  }

  predicate InBounds(s: string, spans: seq<(nat, nat)>)
  {
    forall k :: 0 <= k < |spans| ==> spans[k].0 <= spans[k].1 <= |s|
  }

  /** The repaired text of each span, in order. */
  function SpanTexts(s: string, spans: seq<(nat, nat)>): (r: seq<string>)
    requires InBounds(s, spans)
    ensures |r| == |spans|
    ensures forall k :: 0 <= k < |spans| ==> r[k] == ReplaceMd(s[spans[k].0..spans[k].1])
  {
    if spans == [] then []
    else [ReplaceMd(s[spans[0].0..spans[0].1])] + SpanTexts(s, spans[1..])
  }

  lemma SpanTextsCons(s: string, sp: (nat, nat), rest: seq<(nat, nat)>)
    requires sp.0 <= sp.1 <= |s| && InBounds(s, rest)
    ensures InBounds(s, [sp] + rest)
    ensures SpanTexts(s, [sp] + rest) == [ReplaceMd(s[sp.0..sp.1])] + SpanTexts(s, rest)
  {
    assert ([sp] + rest)[1..] == rest;
  }

  /** A well-formed match: it starts at an `http`, and it ends at the first
      position after that `http` where the lookahead holds. */
  predicate SpanOk(s: string, sp: (nat, nat))
  {
    && StartsAt(s, sp.0, "http")
    && sp.1 == SpanEnd(s, sp.0 + 4)
  }

  /** Every span is well formed and starts at or after `i`. */
  ghost predicate AllOk(s: string, sp: seq<(nat, nat)>, i: nat)
  {
    forall k :: 0 <= k < |sp| ==> SpanOk(s, sp[k]) && i <= sp[k].0
  }

  /** The spans come in left-to-right order and do not overlap. */
  ghost predicate Ordered(sp: seq<(nat, nat)>)
  {
    forall k, k' :: 0 <= k < k' < |sp| ==> sp[k].1 <= sp[k'].0
  }

  /** No `http` from `i` on is skipped: each lies inside some span. */
  ghost predicate Covers(s: string, sp: seq<(nat, nat)>, i: nat)
  {
    forall q :: i <= q < |s| && StartsAt(s, q, "http") ==>
      exists k :: 0 <= k < |sp| && sp[k].0 <= q < sp[k].1
  }

  lemma SpansUnfold(s: string, i: nat)
    requires i <= |s| && NextHttp(s, i) < |s|
    ensures Spans(s, i) == [(NextHttp(s, i), SpanEnd(s, NextHttp(s, i) + 4))] + Spans(s, SpanEnd(s, NextHttp(s, i) + 4))
  {
  }

  lemma {:induction false} SpansAllOk(s: string, i: nat)
    requires i <= |s|
    ensures AllOk(s, Spans(s, i), i)
    decreases |s| - i
  {
    var st := NextHttp(s, i);
    if st < |s| {
      var e := SpanEnd(s, st + 4);
      var rest := Spans(s, e);
      var sp := [(st, e)] + rest;
      SpansUnfold(s, i);
      SpansAllOk(s, e);
      forall k | 0 <= k < |sp| ensures SpanOk(s, sp[k]) && i <= sp[k].0 {
        if k > 0 { assert sp[k] == rest[k - 1]; }
      }
    }
  }

  /** Every span starts at or after `i` and ends no earlier than it starts. */
  lemma {:induction false} SpansAfter(s: string, i: nat)
    requires i <= |s|
    ensures forall k :: 0 <= k < |Spans(s, i)| ==> i <= Spans(s, i)[k].0 <= Spans(s, i)[k].1
    decreases |s| - i
  {
    var st := NextHttp(s, i);
    if st < |s| {
      var e := SpanEnd(s, st + 4);
      var rest := Spans(s, e);
      var sp := [(st, e)] + rest;
      SpansUnfold(s, i);
      SpansAfter(s, e);
      forall k | 0 <= k < |sp| ensures i <= sp[k].0 <= sp[k].1 {
        if k > 0 { assert sp[k] == rest[k - 1]; }
      }
    }
  }

  lemma {:induction false} SpansOrdered(s: string, i: nat)
    requires i <= |s|
    ensures Ordered(Spans(s, i))
    decreases |s| - i
  {
    var st := NextHttp(s, i);
    if st < |s| {
      var e := SpanEnd(s, st + 4);
      var rest := Spans(s, e);
      var sp := [(st, e)] + rest;
      SpansUnfold(s, i);
      SpansOrdered(s, e);
      SpansAfter(s, e);
      forall k, k' | 0 <= k < k' < |sp| ensures sp[k].1 <= sp[k'].0 {
        assert sp[k'] == rest[k' - 1];
        if k > 0 { assert sp[k] == rest[k - 1]; }
      }
    }
  }

  lemma {:induction false} CoveredAt(s: string, i: nat, q: nat)
    requires i <= q < |s| && StartsAt(s, q, "http")
    ensures exists k :: 0 <= k < |Spans(s, i)| && Spans(s, i)[k].0 <= q < Spans(s, i)[k].1
    decreases |s| - i
  {
    var st := NextHttp(s, i);
    NextHttpFirst(s, i);
    if q < st {
      assert false;
    }
    var e := SpanEnd(s, st + 4);
    SpansUnfold(s, i);
    var sp := Spans(s, i);
    var rest := Spans(s, e);
    assert sp == [(st, e)] + rest;
    if q < e {
      assert sp[0].0 <= q < sp[0].1;
    } else {
      CoveredAt(s, e, q);
      var k :| 0 <= k < |rest| && rest[k].0 <= q < rest[k].1;
      assert sp[k + 1] == rest[k];
    }
  }

  lemma SpansCover(s: string, i: nat)
    requires i <= |s|
    ensures Covers(s, Spans(s, i), i)
  {
    forall q | i <= q < |s| && StartsAt(s, q, "http")
      ensures exists k :: 0 <= k < |Spans(s, i)| && Spans(s, i)[k].0 <= q < Spans(s, i)[k].1
    {
      CoveredAt(s, i, q);
    }
  }

  /** The matches are well formed, in left-to-right order, non-overlapping,
      and no `http` in the line is left outside a match. */
  lemma SpansFacts(s: string, i: nat)
    requires i <= |s|
    ensures AllOk(s, Spans(s, i), i)
    ensures Ordered(Spans(s, i))
    ensures Covers(s, Spans(s, i), i)
  {
    SpansAllOk(s, i);
    SpansOrdered(s, i);
    SpansCover(s, i);
  }

  lemma SpansInBounds(s: string, i: nat)
    requires i <= |s|
    ensures InBounds(s, Spans(s, i))
  {
    SpansAllOk(s, i);
    var sp := Spans(s, i);
    forall k | 0 <= k < |sp| ensures sp[k].0 <= sp[k].1 <= |s| {
      assert SpanOk(s, sp[k]);
    }
  }

  /** The spec of regex_links (lines 214-218 of scraper.py): a comment line
      yields nothing, any other line yields the repaired matches in order. */
  function LinkTexts(line: string): seq<string>
  {
    if IsCommentLine(line) then [] else TextsFrom(line, 0)
  }

  /** The repaired matches re.finditer reports when it resumes at `i`. */
  function TextsFrom(line: string, i: nat): seq<string>
    requires i <= |line|
  {
    SpansInBounds(line, i);
    SpanTexts(line, Spans(line, i))
  }

  lemma {:induction false} ReplaceMdCons(c: char, rest: string)
    requires c != '.'
    ensures ReplaceMd([c] + rest) == [c] + ReplaceMd(rest)
  {
    assert ([c] + rest)[1..] == rest;
  }

  /** Replacing never introduces a character. */
  lemma {:induction false} ReplaceMdChars(s: string)
    ensures |ReplaceMd(s)| <= |s|
    ensures forall c :: c in ReplaceMd(s) ==> c in s
    decreases |s|
  {
    if |s| > 0 {
      if StartsAt(s, 0, ".md.") {
        ReplaceMdChars(s[4..]);
        assert s[0] == '.';
        forall c | c in ReplaceMd(s[4..]) ensures c in s {
          var j :| 0 <= j < |s[4..]| && s[4..][j] == c;
          assert s[j + 4] == c;
        }
      } else {
        ReplaceMdChars(s[1..]);
        forall c | c in ReplaceMd(s[1..]) ensures c in s {
          var j :| 0 <= j < |s[1..]| && s[1..][j] == c;
          assert s[j + 1] == c;
        }
      }
    }
  }

  /** Without an occurrence of `.md.` the text is returned unchanged. */
  lemma {:induction false} ReplaceMdNoop(s: string)
    requires !Contains(s, ".md.")
    ensures ReplaceMd(s) == s
    decreases |s|
  {
    if |s| > 0 {
      assert !StartsAt(s, 0, ".md.");
      if Contains(s[1..], ".md.") {
        var i :| 0 <= i <= |s[1..]| && StartsAt(s[1..], i, ".md.");
        assert s[i + 1..i + 5] == s[1..][i..i + 4];
        assert StartsAt(s, i + 1, ".md.");
      }
      ReplaceMdNoop(s[1..]);
      assert s == [s[0]] + s[1..];
    }
  }

  /** The leftmost occurrence is the one replaced, and scanning continues
      after it: str.replace semantics. */
  lemma {:induction false} ReplaceMdLeftmost(a: string, b: string)
    requires forall i :: 0 <= i < |a| ==> !StartsAt(a + ".md." + b, i, ".md.")
    ensures ReplaceMd(a + ".md." + b) == a + "." + ReplaceMd(b)
    decreases |a|
  {
    var s := a + ".md." + b;
    if |a| == 0 {
      assert s == ".md." + b;
      assert StartsAt(s, 0, ".md.");
      assert s[4..] == b;
    } else {
      assert !StartsAt(s, 0, ".md.");
      assert s[1..] == a[1..] + ".md." + b;
      forall i | 0 <= i < |a[1..]|
        ensures !StartsAt(a[1..] + ".md." + b, i, ".md.")
      {
        assert !StartsAt(s, i + 1, ".md.");
        assert s[i + 1..i + 5] == s[1..][i..i + 4];
      }
      ReplaceMdLeftmost(a[1..], b);
      assert a == [a[0]] + a[1..];
    }
  }

  /** A link that starts with `http` still does after the repair. */
  lemma ReplaceMdKeepsHttp(s: string)
    requires StartsAt(s, 0, "http")
    ensures StartsAt(ReplaceMd(s), 0, "http")
  {
    assert s == [s[0]] + ([s[1]] + ([s[2]] + ([s[3]] + s[4..])));
    ReplaceMdCons(s[3], s[4..]);
    ReplaceMdCons(s[2], [s[3]] + s[4..]);
    ReplaceMdCons(s[1], [s[2]] + ([s[3]] + s[4..]));
    ReplaceMdCons(s[0], [s[1]] + ([s[2]] + ([s[3]] + s[4..])));
  }

  /** A repaired match starts with `http` and holds no whitespace and no
      double quote. */
  lemma RepairedSpanShape(line: string, sp: (nat, nat))
    requires SpanOk(line, sp)
    ensures sp.0 <= sp.1 <= |line|
    ensures StartsAt(ReplaceMd(line[sp.0..sp.1]), 0, "http")
    ensures forall c :: c in ReplaceMd(line[sp.0..sp.1]) ==> !IsSpace(c) && c != '"'
  {
    var (st, e) := sp;
    var raw := line[st..e];
    assert raw[..4] == line[st..st + 4];
    ReplaceMdKeepsHttp(raw);
    ReplaceMdChars(raw);
    SpanEndFirst(line, st + 4);
    forall c | c in raw ensures !IsSpace(c) && c != '"' {
      var j :| 0 <= j < |raw| && raw[j] == c;
      if j >= 4 {
        assert !EndsSpanAt(line, st + j);
      } else {
        assert c == "http"[j];
      }
    }
  }

  /** Every extracted link starts with `http` and holds no whitespace and no
      double quote. */
  lemma LinkTextsShape(line: string)
    ensures forall k :: 0 <= k < |LinkTexts(line)| ==>
      && StartsAt(LinkTexts(line)[k], 0, "http")
      && (forall c :: c in LinkTexts(line)[k] ==> !IsSpace(c) && c != '"')
  {
    if !IsCommentLine(line) {
      var sp := Spans(line, 0);
      SpansAllOk(line, 0);
      forall k | 0 <= k < |sp|
        ensures StartsAt(LinkTexts(line)[k], 0, "http")
        ensures forall c :: c in LinkTexts(line)[k] ==> !IsSpace(c) && c != '"'
      {
        RepairedSpanShape(line, sp[k]);
      }
    }
  }

  /** A comment line yields no link at all, whatever follows the '#'. */
  lemma CommentLineYieldsNothing(line: string, k: nat)
    requires k < |line| && line[k] == '#'
    requires forall j :: 0 <= j < k ==> IsSpace(line[j])
    ensures LinkTexts(line) == []
  {
    CommentLineIff(line);
  }

  lemma ScanMatchStep(line: string, i: nat)
    requires StartsAt(line, i, "http")
    ensures TextsFrom(line, i) == [ReplaceMd(line[i..SpanEnd(line, i + 4)])] + TextsFrom(line, SpanEnd(line, i + 4))
  {
    var e := SpanEnd(line, i + 4);
    SpansUnfold(line, i);
    SpansInBounds(line, e);
    SpanTextsCons(line, (i, e), Spans(line, e));
  }

  lemma ScanSkipStep(line: string, i: nat)
    requires i < |line| && !StartsAt(line, i, "http")
    ensures TextsFrom(line, i) == TextsFrom(line, i + 1)
  {
    assert NextHttp(line, i) == NextHttp(line, i + 1);
    assert Spans(line, i) == Spans(line, i + 1);
  }

  lemma ScanDone(line: string)
    ensures TextsFrom(line, |line|) == []
  {
    assert Spans(line, |line|) == [];
  }

  /** The lazy `.*?` of one match: the end of the match starting at `i`. */
  method MatchEnd(line: string, i: nat) returns (e: nat)
    requires StartsAt(line, i, "http")
    ensures e == SpanEnd(line, i + 4)
  {
    e := i + 4;
    while !EndsSpanAt(line, e)
      invariant i + 4 <= e <= |line|
      invariant SpanEnd(line, e) == SpanEnd(line, i + 4)
      decreases |line| - e
    {
      e := e + 1;
    }
  }

  /** The scanner: resumes after each match, as re.finditer does. */
  method ScanLinks(line: string) returns (links: seq<string>)
    ensures links == LinkTexts(line)
  {
    links := [];
    if IsCommentLine(line) {
      return;
    }
    var i := 0;
    while i < |line|
      invariant 0 <= i <= |line|
      invariant links + TextsFrom(line, i) == TextsFrom(line, 0)
      decreases |line| - i
    {
      if StartsAt(line, i, "http") {
        var e := MatchEnd(line, i);
        ScanMatchStep(line, i);
        assert links + ([ReplaceMd(line[i..e])] + TextsFrom(line, e))
            == (links + [ReplaceMd(line[i..e])]) + TextsFrom(line, e);
        links := links + [ReplaceMd(line[i..e])];
        i := e;
      } else {
        ScanSkipStep(line, i);
        i := i + 1;
      }
    }
    ScanDone(line);
  }
}
