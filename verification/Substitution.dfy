/** What splicing text into the code placeholders of a statement does to its scan (src/execute.c). */
module Substitution {
  import opened Text
  import opened Scanner

  /** The placeholders among the tokens of a statement: no stretch is a lone question mark. */
  function Placeholders(ts: seq<string>): nat {
    if ts == [] then 0 else (if ts[0] == "?" then 1 else 0) + Placeholders(ts[1..])
  }

  /** The text with its i-th placeholder replaced by lits[i], every other byte as it was. */
  function Splice(ts: seq<string>, lits: seq<string>): string
    requires Placeholders(ts) <= |lits|
  {
    if ts == [] then ""
    else if ts[0] == "?" then lits[0] + Splice(ts[1..], lits[1..])
    else ts[0] + Splice(ts[1..], lits)
  }

  /** The tokens with the i-th placeholder replaced by the tokens of lits[i]. */
  function Replaced(ts: seq<string>, lits: seq<string>): (r: seq<string>)
    requires Placeholders(ts) <= |lits|
  {
    if ts == [] then []
    else if ts[0] == "?" then Scan(lits[0]) + Replaced(ts[1..], lits[1..])
    else [ts[0]] + Replaced(ts[1..], lits)
  }

  function Last(ts: seq<string>): string
    requires ts != []
  {
    ts[|ts| - 1]
  }

  predicate Fits(before: string, after: string) {
    before == "" || Sealed(before, after)
  }

  /** Every token leaves room for the one byte that comes to stand after it. `before` is the last
      token put out so far, "" at the start. */
  predicate JunctionsHold(before: string, ts: seq<string>, lits: seq<string>)
    requires Placeholders(ts) <= |lits|
    requires forall i :: 0 <= i < |lits| ==> lits[i] != ""
    decreases ts
  {
    if ts == [] then true
    else if ts[0] == "?" then
      && Fits(before, lits[0])
      && JunctionsHold(Last(Scan(lits[0])), ts[1..], lits[1..])
    else
      && Fits(before, ts[0])
      && JunctionsHold(ts[0], ts[1..], lits)
  }

  lemma ChainAppend(a: seq<string>, b: seq<string>)
    ensures Chain(a + b) <==>
            Chain(a) && Chain(b) && (a == [] || b == [] || Sealed(Last(a), b[0]))
  {
    var c := a + b;
    if Chain(c) {
      forall i | 0 <= i < |a| ensures IsToken(a[i]) { assert a[i] == c[i]; }
      forall i | 0 <= i < |a| - 1 ensures Sealed(a[i], a[i + 1]) { assert a[i] == c[i] && a[i + 1] == c[i + 1]; }
      forall i | 0 <= i < |b| ensures IsToken(b[i]) { assert b[i] == c[|a| + i]; }
      forall i | 0 <= i < |b| - 1 ensures Sealed(b[i], b[i + 1]) {
        assert b[i] == c[|a| + i] && b[i + 1] == c[|a| + i + 1];
      }
      if a != [] && b != [] { assert Last(a) == c[|a| - 1] && b[0] == c[|a| - 1 + 1]; }
    }
  }

  lemma ScanFirstByte(t: string)
    requires t != ""
    ensures Scan(t) != [] && Scan(t)[0] != "" && Scan(t)[0][..1] == t[..1]
  {
  }

  function Start(before: string): seq<string> {
    if before == "" then [] else [before]
  }

  /** Only the last token of a chain matters to what follows it. */
  lemma ChainStep(before: string, lit: seq<string>, rest: seq<string>)
    requires before == "" || IsToken(before)
    requires lit != [] && Chain(lit)
    ensures Chain(Start(before) + (lit + rest)) <==>
            Fits(before, lit[0]) && Chain([Last(lit)] + rest)
  {
    var head := Start(before);
    assert head + (lit + rest) == (head + lit) + rest;
    ChainAppend(head, lit);
    ChainAppend(head + lit, rest);
    ChainAppend([Last(lit)], rest);
    assert Last(head + lit) == Last(lit);
  }

  lemma FitsFirstByte(before: string, a: string, b: string)
    requires a != "" && b != "" && a[..1] == b[..1]
    ensures Fits(before, a) == Fits(before, b)
  {
  }

  /** Carrying the last token along decides whether the replaced tokens form a chain. */
  lemma {:induction false} JunctionsDecideChain(before: string, ts: seq<string>, lits: seq<string>)
    requires Placeholders(ts) <= |lits|
    requires forall i :: 0 <= i < |lits| ==> lits[i] != ""
    requires forall i :: 0 <= i < |ts| ==> IsToken(ts[i])
    requires before == "" || IsToken(before)
    ensures JunctionsHold(before, ts, lits) <==> Chain(Start(before) + Replaced(ts, lits))
    decreases ts
  {
    if ts == [] {
      assert Start(before) + [] == Start(before);
    } else if ts[0] == "?" {
      var lit, rest := Scan(lits[0]), Replaced(ts[1..], lits[1..]);
      ScanIsChain(lits[0]);
      ScanFirstByte(lits[0]);
      FitsFirstByte(before, lits[0], lit[0]);
      ChainStep(before, lit, rest);
      assert IsToken(Last(lit));
      JunctionsDecideChain(Last(lit), ts[1..], lits[1..]);
    } else {
      var rest := Replaced(ts[1..], lits);
      ChainStep(before, [ts[0]], rest);
      JunctionsDecideChain(ts[0], ts[1..], lits);
    }
  }

  lemma {:induction false} ReplacedConcat(ts: seq<string>, lits: seq<string>)
    requires Placeholders(ts) <= |lits|
    requires forall i :: 0 <= i < |ts| ==> ts[i] != ""
    ensures Concat(Replaced(ts, lits)) == Splice(ts, lits)
    ensures forall i :: 0 <= i < |Replaced(ts, lits)| ==> Replaced(ts, lits)[i] != ""
  {
    if ts == [] {
    } else if ts[0] == "?" {
      ScanIsChain(lits[0]);
      ConcatAppend(Scan(lits[0]), Replaced(ts[1..], lits[1..]));
      ReplacedConcat(ts[1..], lits[1..]);
    } else {
      ReplacedConcat(ts[1..], lits);
    }
  }

  /** Rescanning the spliced text gives the original tokens, with every placeholder replaced by the
      tokens of its literal, exactly when no junction lets one token run into the next byte. */
  lemma {:induction false} SubstitutionPreservesScan(sql: string, lits: seq<string>)
    requires Placeholders(Scan(sql)) <= |lits|
    requires forall i :: 0 <= i < |lits| ==> lits[i] != ""
    ensures Scan(Splice(Scan(sql), lits)) == Replaced(Scan(sql), lits)
            <==> JunctionsHold("", Scan(sql), lits)
  {
    ScanIsChain(sql);
    SplicingRescans(Scan(sql), lits);
  }

  lemma {:induction false} SplicingRescans(ts: seq<string>, lits: seq<string>)
    requires Placeholders(ts) <= |lits|
    requires forall i :: 0 <= i < |lits| ==> lits[i] != ""
    requires forall i :: 0 <= i < |ts| ==> IsToken(ts[i])
    ensures Scan(Splice(ts, lits)) == Replaced(ts, lits) <==> JunctionsHold("", ts, lits)
  {
    var rs := Replaced(ts, lits);
    ReplacedConcat(ts, lits);
    JunctionsDecideChain("", ts, lits);
    RescansAs(Splice(ts, lits), rs);
    assert Start("") + rs == rs;
  }

  lemma {:induction false} RescansAs(text: string, rs: seq<string>)
    requires text == Concat(rs)
    requires forall i :: 0 <= i < |rs| ==> rs[i] != ""
    ensures Scan(text) == rs <==> Chain(rs)
  {
    RescanExactly(rs);
  }

  // When the junctions hold: what may stand next to a placeholder, and what may replace one.

  /** The bytes a literal could run into, or that could run into a literal. */
  predicate Hugs(c: char) {
    IsNameByte(c) || c == '\'' || c == '"' || c == '?'
  }

  /** No placeholder has such a byte on either side. */
  predicate Separated(ts: seq<string>) {
    && (forall i :: 0 <= i < |ts| - 1 && ts[i] == "?" && ts[i + 1] != "" ==> !Hugs(ts[i + 1][0]))
    && (forall i :: 0 <= i < |ts| - 1 && ts[i + 1] == "?" && ts[i] != "" ==> !Hugs(ts[i][|ts[i]| - 1]))
  }

  /** Text that may replace a placeholder: it opens nothing together with the byte before it, holds
      neither placeholder nor statement cut, and its last token is closed. */
  ghost predicate Spliceable(lit: string) {
    && lit != ""
    && lit[0] !in {'-', '/', '*', '$'}
    && "?" !in Scan(lit)
    && ";" !in Scan(lit)
    && (forall y: string :: y != "" && !Hugs(y[0]) ==> Sealed(Last(Scan(lit)), y))
  }

  /** A token that ended before a placeholder ends before a literal too, unless its last byte is one
      that a literal could run into. */
  lemma SealedBeforeLiteral(x: string, lit: string)
    requires Sealed(x, "?") && !Hugs(x[|x| - 1])
    requires lit != "" && lit[0] !in {'-', '/', '*', '$'}
    ensures Sealed(x, lit)
  {
    var t, u := x + "?"[..1], x + lit[..1];
    var o, k := OpeningOf(t), OpeningLen(OpeningOf(t));
    match o
    case Name =>
      assert t[1..] == x[1..] + "?";
      assert u[1..] == x[1..] + lit[..1];
      NamesOnly(x[1..], "?");
      assert false;
    case Str =>
      assert t[1..] == x[1..] + "?";
      StringEndsWithQuote(x[1..], "?");
    case Quoted =>
      assert t[1..] == x[1..] + "?";
      QuotedEndsWithQuote(x[1..], "?");
    case Line =>
      assert t[2..] == x[2..] + "?" && u[2..] == x[2..] + lit[..1];
      LineLookahead(x[2..], lit[..1]);
    case Block =>
      assert t[2..] == x[2..] + "?" && u[2..] == x[2..] + lit[..1];
      PairLookahead(x[2..], lit[..1], '*', '/');
    case Body =>
      assert t[2..] == x[2..] + "?" && u[2..] == x[2..] + lit[..1];
      PairLookahead(x[2..], lit[..1], '$', '$');
    case Code =>
      assert OpeningOf(u).Code?;
  }

  lemma {:induction false} NamesOnly(x: string, b: string)
    requires NameRest(x + b) == |x|
    ensures forall i :: 0 <= i < |x| ==> IsNameByte(x[i])
  {
    if x != "" {
      assert (x + b)[1..] == x[1..] + b;
      NamesOnly(x[1..], b);
    }
  }

  lemma {:induction false} StringEndsWithQuote(x: string, b: string)
    requires b != "" && StringRest(x + b) == |x|
    ensures x != "" && x[|x| - 1] == '\''
  {
    if |x| > 0 {
      assert (x + b)[1..] == x[1..] + b;
      if |x| > 1 { assert (x + b)[2..] == x[2..] + b; }
      if x[0] == '\\' || (x[0] == '\'' && |x| > 1) { StringEndsWithQuote(x[2..], b); }
      else if x[0] != '\'' { StringEndsWithQuote(x[1..], b); }
    }
  }

  lemma {:induction false} QuotedEndsWithQuote(x: string, b: string)
    requires b != "" && QuotedRest(x + b) == |x|
    ensures x != "" && x[|x| - 1] == '"'
  {
    if |x| > 0 {
      assert (x + b)[1..] == x[1..] + b;
      if |x| > 1 { assert (x + b)[2..] == x[2..] + b; }
      if x[0] == '"' && |x| > 1 { QuotedEndsWithQuote(x[2..], b); }
      else if x[0] != '"' { QuotedEndsWithQuote(x[1..], b); }
    }
  }

  /** Separated placeholders and closed literals leave every junction intact. */
  lemma {:induction false} SeparationSuffices(before: string, ts: seq<string>, lits: seq<string>)
    requires Placeholders(ts) <= |lits|
    requires forall i :: 0 <= i < |lits| ==> lits[i] != "" && Spliceable(lits[i])
    requires Chain(ts) && Separated(ts)
    requires before == "" || ts == [] ||
             (Sealed(before, ts[0]) && (ts[0] == "?" ==> !Hugs(before[|before| - 1])))
    ensures JunctionsHold(before, ts, lits)
    decreases ts
  {
    hide Sealed, IsToken, Hugs, Chain, Separated, Spliceable;
    if ts != [] {
      RestSeparated(ts);
      if ts[0] == "?" {
        var last := Last(Scan(lits[0]));
        LiteralOpens(lits[0]);
        if before != "" { SealedBeforeLiteral(before, lits[0]); }
        LiteralCloses(lits[0], ts);
        SeparationSuffices(last, ts[1..], lits[1..]);
      } else {
        SeparationSuffices(ts[0], ts[1..], lits);
      }
    }
  }

  /** What the rest of a separated chain is, and how its first two tokens stand. */
  lemma RestSeparated(ts: seq<string>)
    requires ts != [] && Chain(ts) && Separated(ts)
    ensures Chain(ts[1..]) && Separated(ts[1..]) && IsToken(ts[0]) && ts[0] != ""
    ensures |ts| > 1 ==>
              && ts[1..][0] == ts[1] && ts[1] != "" && Sealed(ts[0], ts[1])
              && (ts[0] == "?" ==> !Hugs(ts[1][0])) && (ts[1] == "?" ==> !Hugs(ts[0][|ts[0]| - 1]))
  {
    hide Sealed, Hugs;
    var us := ts[1..];
    forall i | 0 <= i < |us| ensures IsToken(us[i]) { assert us[i] == ts[i + 1]; }
    forall i | 0 <= i < |us| - 1
      ensures Sealed(us[i], us[i + 1])
      ensures us[i] == "?" && us[i + 1] != "" ==> !Hugs(us[i + 1][0])
      ensures us[i + 1] == "?" && us[i] != "" ==> !Hugs(us[i][|us[i]| - 1])
    {
      assert us[i] == ts[i + 1] && us[i + 1] == ts[i + 1 + 1];
    }
    if |ts| > 1 { assert ts[0 + 1] == ts[1]; }
  }

  lemma LiteralOpens(lit: string)
    requires Spliceable(lit)
    ensures lit != "" && lit[0] !in {'-', '/', '*', '$'}
  {
  }

  lemma LiteralCloses(lit: string, ts: seq<string>)
    requires Spliceable(lit) && (|ts| > 1 ==> ts[1] != "" && !Hugs(ts[1][0]))
    ensures var last := Last(Scan(lit));
            |ts| > 1 ==> Sealed(last, ts[1]) && last != "" && ts[1] != "?"
  {
    hide Scan;
    if |ts| > 1 { assert Sealed(Last(Scan(lit)), ts[1]); }
  }

  /** Nothing a literal carries is a placeholder. */
  lemma {:induction false} NoPlaceholderRemains(ts: seq<string>, lits: seq<string>)
    requires Placeholders(ts) <= |lits|
    requires forall i :: 0 <= i < |lits| ==> Spliceable(lits[i])
    ensures "?" !in Replaced(ts, lits)
    ensures Placeholders(Replaced(ts, lits)) == 0
  {
    if ts == [] {
    } else if ts[0] == "?" {
      NoPlaceholderRemains(ts[1..], lits[1..]);
      NonePlaced(Replaced(ts, lits));
    } else {
      NoPlaceholderRemains(ts[1..], lits);
      NonePlaced(Replaced(ts, lits));
    }
  }

  lemma {:induction false} NonePlaced(ts: seq<string>)
    requires "?" !in ts
    ensures Placeholders(ts) == 0
  {
    if ts != [] { NonePlaced(ts[1..]); }
  }
}
