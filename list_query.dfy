/** The query-string handling that the hotel and hospital list handlers share
    line for line: the comparison-operator rewrite of the serialised query,
    the discarded copy without the control parameters, select/sort lists,
    and page/limit pagination. */
module ListQuery {
  import opened Common

  // ------------------------------------------------------------------
  // The operator rewrite:
  //   JSON.stringify(query).replace(/\b(gt|gte|lt|lte|in)\b/g, m => "$" + m)

  /** The regular-expression word characters that decide `\b`. */
  predicate IsWordChar(c: char)
  {
    ('a' <= c <= 'z') || ('A' <= c <= 'Z') || ('0' <= c <= '9') || c == '_'
  }

  const Operators: set<string> := {"gt", "gte", "lt", "lte", "in"}

  /** Membership in Operators, spelled out character by character. */
  predicate IsOperator(w: string)
  {
    || (|w| == 2 && (w[0] == 'g' || w[0] == 'l') && w[1] == 't')
    || (|w| == 3 && (w[0] == 'g' || w[0] == 'l') && w[1] == 't' && w[2] == 'e')
    || (|w| == 2 && w[0] == 'i' && w[1] == 'n')
  }

  lemma {:induction false} OperatorSpelling(w: string)
    ensures IsOperator(w) <==> w in Operators
  {
    if IsOperator(w) {
      if |w| == 2 {
        assert w == [w[0], w[1]];
      } else {
        assert w == [w[0], w[1], w[2]];
      }
    }
  }

  /** Length of the run of word characters at the start of `s`. */
  function WordLen(s: string): (n: nat)
    ensures n <= |s|
    ensures forall i :: 0 <= i < n ==> IsWordChar(s[i])
    ensures n < |s| ==> !IsWordChar(s[n])
    ensures s != [] && IsWordChar(s[0]) ==> n >= 1
  {
    if s != [] && IsWordChar(s[0]) then 1 + WordLen(s[1..]) else 0
  }

  /** One alternative of the pattern matches at the start of `s` and is
      followed by a word boundary. */
  predicate AltMatches(s: string, op: string)
  {
    |op| <= |s| && s[..|op|] == op && (|op| == |s| || !IsWordChar(s[|op|]))
  }

  /** The regex engine at a position where the leading `\b` holds: it tries
      gt, gte, lt, lte, in in that order and takes the first alternative
      whose trailing `\b` holds. The result is the match length, 0 for none. */
  function MatchAt(s: string): (n: nat)
    ensures n <= |s|
    ensures n > 0 ==> IsWordChar(s[0]) && IsOperator(s[..n])
  {
    if AltMatches(s, "gt") then 2
    else if AltMatches(s, "gte") then 3
    else if AltMatches(s, "lt") then 2
    else if AltMatches(s, "lte") then 3
    else if AltMatches(s, "in") then 2
    else 0
  }

  /** The global replace, scanning left to right; `afterWord` says whether
      the character before `s` is a word character (so `\b` fails at a word
      character). After a match the scan resumes right behind it. */
  function Replace(s: string, afterWord: bool): string
    decreases |s|
  {
    if s == [] then []
    else if !afterWord && MatchAt(s) > 0 then "$" + s[..MatchAt(s)] + Replace(s[MatchAt(s)..], true)
    else if IsWordChar(s[0]) then [s[0]] + Replace(s[1..], true)
    else [s[0]] + Replace(s[1..], false)
  }

  /** The rewrite applied to the serialised query. */
  function RewriteOperators(s: string): string
  {
    Replace(s, false)
  }

  /** The reference meaning: `$` before every maximal word that is one of
      the operators, everything else unchanged. */
  function MarkWord(w: string): string
  {
    if IsOperator(w) then "$" + w else w
  }

  function Marked(s: string): string
    decreases |s|
  {
    if s == [] then []
    else if IsWordChar(s[0]) then MarkWord(s[..WordLen(s)]) + Marked(s[WordLen(s)..])
    else [s[0]] + Marked(s[1..])
  }

  lemma {:induction false} WordLenAtLeast(s: string, m: nat)
    requires m <= |s| && forall i :: 0 <= i < m ==> IsWordChar(s[i])
    ensures WordLen(s) >= m
  {
    if m > 0 {
      WordLenAtLeast(s[1..], m - 1);
    }
  }

  /** An alternative (a word) matches with its trailing boundary exactly
      when it is the whole leading word. */
  lemma {:induction false} AltIsWholeWord(s: string, op: string)
    requires IsOperator(op)
    ensures AltMatches(s, op) <==> s[..WordLen(s)] == op
  {
    assert forall i :: 0 <= i < |op| ==> IsWordChar(op[i]) by {
      if op == "gt" || op == "lt" || op == "in" {
        assert |op| == 2 && IsWordChar(op[0]) && IsWordChar(op[1]);
      } else {
        assert |op| == 3 && IsWordChar(op[0]) && IsWordChar(op[1]) && IsWordChar(op[2]);
      }
    }
    if AltMatches(s, op) {
      WordLenAtLeast(s, |op|);
    }
  }

  lemma {:induction false} MatchOperatorWord(s: string, w: string)
    requires s != [] && IsWordChar(s[0]) && w == s[..WordLen(s)] && IsOperator(w)
    ensures MatchAt(s) == |w|
  {
    AltIsWholeWord(s, "gt");
    if w != "gt" {
      AltIsWholeWord(s, "gte");
      if w != "gte" {
        AltIsWholeWord(s, "lt");
        if w != "lt" {
          AltIsWholeWord(s, "lte");
          if w != "lte" {
            AltIsWholeWord(s, "in");
          }
        }
      }
    }
  }

  lemma {:induction false} MatchOtherWord(s: string)
    requires s != [] && IsWordChar(s[0]) && !IsOperator(s[..WordLen(s)])
    ensures MatchAt(s) == 0
  {
    AltIsWholeWord(s, "gt");
    AltIsWholeWord(s, "gte");
    AltIsWholeWord(s, "lt");
    AltIsWholeWord(s, "lte");
    AltIsWholeWord(s, "in");
  }

  /** At the start of a word, the regex matches the whole word when it is an
      operator, and nothing otherwise. */
  lemma {:induction false} MatchIsWholeWord(s: string)
    requires s != [] && IsWordChar(s[0])
    ensures MatchAt(s) == if IsOperator(s[..WordLen(s)]) then WordLen(s) else 0
  {
    var w := s[..WordLen(s)];
    if IsOperator(w) {
      MatchOperatorWord(s, w);
    } else {
      MatchOtherWord(s);
    }
  }

  /** Inside a word nothing matches. */
  lemma {:induction false} ScanInsideWord(s: string, k: nat)
    requires k <= WordLen(s)
    ensures Replace(s, true) == s[..k] + Replace(s[k..], true)
  {
    if k == 0 {
      assert s[..0] == [] && s[0..] == s;
    } else {
      ScanInsideWord(s, k - 1);
      ScanOneMore(s, k);
    }
  }

  /** One more word character copied by the scan. */
  lemma {:induction false} ScanOneMore(s: string, k: nat)
    requires 0 < k <= WordLen(s)
    ensures s[..k - 1] + Replace(s[k - 1..], true) == s[..k] + Replace(s[k..], true)
  {
    var t := s[k - 1..];
    assert IsWordChar(s[k - 1]) && t[0] == s[k - 1];
    ScanWordChar(t);
    assert t[1..] == s[k..];
    assert s[..k - 1] + [s[k - 1]] == s[..k];
    Reassoc(s[..k - 1], [s[k - 1]], Replace(s[k..], true));
  }

  lemma {:induction false} Reassoc(x: string, y: string, z: string)
    ensures x + (y + z) == (x + y) + z
  {
  }

  /** Right after a word character the scan copies a word character and
      stays inside the word. */
  lemma {:induction false} ScanWordChar(s: string)
    requires s != [] && IsWordChar(s[0])
    ensures Replace(s, true) == [s[0]] + Replace(s[1..], true)
  {
  }

  /** At a non-word character the boundary flag does not matter. */
  lemma {:induction false} ScanAtNonWord(s: string)
    requires s == [] || !IsWordChar(s[0])
    ensures Replace(s, true) == Replace(s, false)
  {
  }

  /** The regex scan and the whole-word reference agree on every string:
      every whole-word gt, gte, lt, lte or in gains one `$`, and nothing else
      changes. */
  lemma {:induction false} RewriteMarksWholeWords(s: string)
    ensures RewriteOperators(s) == Marked(s)
    decreases |s|
  {
    if s != [] {
      if !IsWordChar(s[0]) {
        RewriteMarksWholeWords(s[1..]);
        RewriteNonWordStep(s);
      } else {
        RewriteMarksWholeWords(s[WordLen(s)..]);
        RewriteWordStep(s);
      }
    }
  }

  /** A non-word character is copied, and the scan goes on at a boundary. */
  lemma {:induction false} RewriteNonWordStep(s: string)
    requires s != [] && !IsWordChar(s[0])
    requires Replace(s[1..], false) == Marked(s[1..])
    ensures Replace(s, false) == Marked(s)
  {
    assert MatchAt(s) == 0;
  }

  /** A whole word is copied, marked when it is an operator, and the scan goes
      on at the boundary behind it. */
  lemma {:induction false} RewriteWordStep(s: string)
    requires s != [] && IsWordChar(s[0])
    requires Replace(s[WordLen(s)..], false) == Marked(s[WordLen(s)..])
    ensures Replace(s, false) == Marked(s)
  {
    var k := WordLen(s);
    ScanAtNonWord(s[k..]);
    if IsOperator(s[..k]) {
      RewriteOperatorWord(s);
    } else {
      RewriteOtherWord(s);
    }
    assert Marked(s) == MarkWord(s[..k]) + Marked(s[k..]);
  }

  lemma {:induction false} RewriteOperatorWord(s: string)
    requires s != [] && IsWordChar(s[0]) && IsOperator(s[..WordLen(s)])
    ensures Replace(s, false) == "$" + s[..WordLen(s)] + Replace(s[WordLen(s)..], true)
  {
    MatchOperatorWord(s, s[..WordLen(s)]);
  }

  lemma {:induction false} RewriteOtherWord(s: string)
    requires s != [] && IsWordChar(s[0]) && !IsOperator(s[..WordLen(s)])
    ensures Replace(s, false) == s[..WordLen(s)] + Replace(s[WordLen(s)..], true)
  {
    MatchOtherWord(s);
    ScanWordChar(s);
    assert Replace(s, false) == Replace(s, true);
    ScanInsideWord(s, WordLen(s));
  }

  // The rewrite only inserts `$`: deleting each `$` that stands right in
  // front of a whole operator word gives the original text back.

  predicate OperatorAhead(u: string)
  {
    u != [] && IsWordChar(u[0]) && IsOperator(u[..WordLen(u)])
  }

  function Unmark(t: string): string
    decreases |t|
  {
    if t == [] then []
    else if t[0] == '$' && OperatorAhead(t[1..]) then Unmark(t[1..])
    else [t[0]] + Unmark(t[1..])
  }

  lemma {:induction false} WordLenConcat(a: string, b: string)
    requires WordLen(a) < |a| || b == [] || !IsWordChar(b[0])
    ensures WordLen(a + b) == WordLen(a)
  {
    if a == [] {
      assert a + b == b;
    } else if IsWordChar(a[0]) {
      assert (a + b)[1..] == a[1..] + b;
      WordLenConcat(a[1..], b);
    }
  }

  lemma {:induction false} MarkedHead(r: string)
    requires r != [] && !IsWordChar(r[0])
    ensures Marked(r) != [] && Marked(r)[0] == r[0]
  {
  }

  lemma {:induction false} UnmarkWordPrefix(w: string, x: string)
    requires forall i :: 0 <= i < |w| ==> IsWordChar(w[i])
    ensures Unmark(w + x) == w + Unmark(x)
  {
    if w != [] {
      assert (w + x)[1..] == w[1..] + x;
      UnmarkWordPrefix(w[1..], x);
    } else {
      assert w + x == x;
    }
  }

  lemma {:induction false} MarkedNoOperatorAhead(r: string)
    ensures !OperatorAhead(Marked(r))
  {
    if r != [] && IsWordChar(r[0]) {
      var k := WordLen(r);
      if !IsOperator(r[..k]) {
        if k < |r| { MarkedHead(r[k..]); }
        WordLenConcat(r[..k], Marked(r[k..]));
        assert Marked(r)[..k] == r[..k];
      }
    }
  }

  /** Round trip: the rewrite is the original text with `$` signs inserted. */
  lemma {:induction false} UnmarkMarked(s: string)
    ensures Unmark(Marked(s)) == s
    decreases |s|
  {
    if s != [] {
      if !IsWordChar(s[0]) {
        UnmarkMarked(s[1..]);
        UnmarkNonWordStep(s);
      } else {
        UnmarkMarked(s[WordLen(s)..]);
        UnmarkWordStep(s);
      }
    }
  }

  /** A copied non-word character (even a `$`) is kept: no operator follows
      it in the marked text. */
  lemma {:induction false} UnmarkNonWordStep(s: string)
    requires s != [] && !IsWordChar(s[0])
    requires Unmark(Marked(s[1..])) == s[1..]
    ensures Unmark(Marked(s)) == s
  {
    MarkedNoOperatorAhead(s[1..]);
    assert Marked(s) == [s[0]] + Marked(s[1..]);
    assert ([s[0]] + Marked(s[1..]))[1..] == Marked(s[1..]);
  }

  lemma {:induction false} UnmarkWordStep(s: string)
    requires s != [] && IsWordChar(s[0])
    requires Unmark(Marked(s[WordLen(s)..])) == s[WordLen(s)..]
    ensures Unmark(Marked(s)) == s
  {
    UnmarkMarkedAt(s);
    Rejoin(s, WordLen(s));
  }

  lemma {:induction false} Rejoin(s: string, k: nat)
    requires k <= |s|
    ensures s[..k] + s[k..] == s
  {
  }

  /** Unmarking the marked text gives the leading word back, then the
      unmarked rest. */
  lemma {:induction false} UnmarkMarkedAt(s: string)
    requires s != [] && IsWordChar(s[0])
    ensures Unmark(Marked(s)) == s[..WordLen(s)] + Unmark(Marked(s[WordLen(s)..]))
  {
    var k := WordLen(s);
    MarkedAtWord(s);
    UnmarkMarkedWord(s[..k], Marked(s[k..]));
  }

  /** Marked at the start of a word: the marked word, then the rest marked,
      which starts with the rest's first (non-word) character. */
  lemma {:induction false} MarkedAtWord(s: string)
    requires s != [] && IsWordChar(s[0])
    ensures Marked(s) == MarkWord(s[..WordLen(s)]) + Marked(s[WordLen(s)..])
    ensures forall i :: 0 <= i < WordLen(s) ==> IsWordChar(s[..WordLen(s)][i])
    ensures Marked(s[WordLen(s)..]) == [] || !IsWordChar(Marked(s[WordLen(s)..])[0])
  {
    if WordLen(s) < |s| {
      MarkedHead(s[WordLen(s)..]);
    }
  }

  /** Unmarking a marked word followed by a non-word character gives the
      word back. */
  lemma {:induction false} UnmarkMarkedWord(w: string, x: string)
    requires forall i :: 0 <= i < |w| ==> IsWordChar(w[i])
    requires x == [] || !IsWordChar(x[0])
    ensures Unmark(MarkWord(w) + x) == w + Unmark(x)
  {
    UnmarkWordPrefix(w, x);
    if IsOperator(w) {
      OperatorWordAhead(w, x);
      UnmarkDollar(w + x);
      assert MarkWord(w) + x == "$" + (w + x);
    }
  }

  /** An operator word followed by a non-word character is an operator ahead. */
  lemma {:induction false} OperatorWordAhead(w: string, x: string)
    requires IsOperator(w) && forall i :: 0 <= i < |w| ==> IsWordChar(w[i])
    requires x == [] || !IsWordChar(x[0])
    ensures OperatorAhead(w + x)
  {
    WordLenAtLeast(w, |w|);
    WordLenConcat(w, x);
    assert (w + x)[..|w|] == w;
  }

  /** The `$` in front of an operator word is dropped. */
  lemma {:induction false} UnmarkDollar(u: string)
    requires OperatorAhead(u)
    ensures Unmark("$" + u) == Unmark(u)
  {
    assert ("$" + u)[1..] == u;
  }

  // The rewrite acts on every key and every value of the query on its own:
  // the serialised form only puts non-word characters around them.

  lemma {:induction false} MarkedSplit(a: string, b: string)
    requires a == [] || b == [] || !IsWordChar(a[|a| - 1]) || !IsWordChar(b[0])
    ensures Marked(a + b) == Marked(a) + Marked(b)
    decreases |a|
  {
    if a == [] {
      assert a + b == b;
    } else if b == [] {
      assert a + b == a;
    } else if !IsWordChar(a[0]) {
      MarkedSplitNonWord(a, b);
    } else {
      MarkedSplitWord(a, b);
    }
  }

  lemma {:induction false} MarkedSplitNonWord(a: string, b: string)
    requires a != [] && b != [] && !IsWordChar(a[0])
    requires !IsWordChar(a[|a| - 1]) || !IsWordChar(b[0])
    ensures Marked(a + b) == Marked(a) + Marked(b)
    decreases |a|, 1
  {
    var a' := a[1..];
    assert (a + b)[0] == a[0];
    assert (a + b)[1..] == a' + b;
    assert a' == [] || a'[|a'| - 1] == a[|a| - 1];
    MarkedSplit(a', b);
  }

  lemma {:induction false} MarkedSplitWord(a: string, b: string)
    requires a != [] && b != [] && IsWordChar(a[0])
    requires !IsWordChar(a[|a| - 1]) || !IsWordChar(b[0])
    ensures Marked(a + b) == Marked(a) + Marked(b)
    decreases |a|, 1
  {
    if WordLen(a) == |a| {
      assert IsWordChar(a[|a| - 1]);
      MarkedSplitAfterWord(a, b);
    } else {
      MarkedSplitInsideWord(a, b);
    }
  }

  /** `a` is one word and `b` starts with a non-word character. */
  lemma {:induction false} MarkedSplitAfterWord(a: string, b: string)
    requires a != [] && WordLen(a) == |a| && b != [] && !IsWordChar(b[0])
    ensures Marked(a + b) == Marked(a) + Marked(b)
  {
    MarkedWholeWord(a);
    WordLenConcat(a, b);
    assert (a + b)[..|a|] == a && (a + b)[|a|..] == b;
  }

  /** `a` starts with a word that ends inside `a`. */
  lemma {:induction false} MarkedSplitInsideWord(a: string, b: string)
    requires a != [] && b != [] && IsWordChar(a[0]) && WordLen(a) < |a|
    requires !IsWordChar(a[|a| - 1]) || !IsWordChar(b[0])
    ensures Marked(a + b) == Marked(a) + Marked(b)
    decreases |a|, 0
  {
    var k := WordLen(a);
    var r := a[k..];
    InsideWordParts(a, b);
    MarkedSplit(r, b);
    MarkedAtWord(a);
    MarkedAtWord(a + b);
    Reassoc(MarkWord(a[..k]), Marked(r), Marked(b));
  }

  /** How `a + b` falls apart when `a`'s leading word ends inside `a`. */
  lemma {:induction false} InsideWordParts(a: string, b: string)
    requires a != [] && IsWordChar(a[0]) && WordLen(a) < |a|
    requires !IsWordChar(a[|a| - 1]) || b == [] || !IsWordChar(b[0])
    ensures (a + b) != [] && IsWordChar((a + b)[0]) && WordLen(a + b) == WordLen(a)
    ensures (a + b)[..WordLen(a)] == a[..WordLen(a)]
    ensures (a + b)[WordLen(a)..] == a[WordLen(a)..] + b
    ensures var r := a[WordLen(a)..]; r != [] && r[|r| - 1] == a[|a| - 1]
  {
    WordLenConcat(a, b);
    assert (a + b)[0] == a[0];
  }

  /** Marked leaves a text without word characters alone. */
  lemma {:induction false} MarkedNonWord(u: string)
    requires forall i :: 0 <= i < |u| ==> !IsWordChar(u[i])
    ensures Marked(u) == u
  {
    if u != [] {
      MarkedNonWord(u[1..]);
    }
  }

  // JSON.stringify of the parsed query string

  /** A query value: a plain string (`?region=Central`) or one level of
      bracketed fields (`?price[gte]=100` gives { gte: "100" }). */
  datatype Value = Text(text: string) | Fields(fields: seq<(string, string)>)

  /** The parsed query string, its keys in the order they appear. */
  type Query = seq<(string, Value)>

  function HexDigit(d: int): char
    requires 0 <= d < 16
  {
    if d < 10 then ('0' as int + d) as char else ('a' as int + d - 10) as char
  }

  /** JSON.stringify's escaping of one character inside a string literal. */
  function EscapeChar(c: char): string
  {
    if c == '"' then "\\\""
    else if c == '\\' then "\\\\"
    else if c == '\U{0008}' then "\\b"
    else if c == '\t' then "\\t"
    else if c == '\n' then "\\n"
    else if c == '\U{000C}' then "\\f"
    else if c == '\r' then "\\r"
    else if c < ' ' then "\\u00" + [HexDigit(c as int / 16), HexDigit(c as int % 16)]
    else [c]
  }

  function Escape(s: string): string
  {
    if s == [] then [] else EscapeChar(s[0]) + Escape(s[1..])
  }

  function Quote(s: string): string
  {
    "\"" + Escape(s) + "\""
  }

  function FieldList(fs: seq<(string, string)>): string
  {
    if fs == [] then ""
    else if |fs| == 1 then Quote(fs[0].0) + ":" + Quote(fs[0].1)
    else Quote(fs[0].0) + ":" + Quote(fs[0].1) + "," + FieldList(fs[1..])
  }

  function ValueJson(v: Value): string
  {
    match v
    case Text(s) => Quote(s)
    case Fields(fs) => "{" + FieldList(fs) + "}"
  }

  function ParamList(q: Query): string
  {
    if q == [] then ""
    else if |q| == 1 then Quote(q[0].0) + ":" + ValueJson(q[0].1)
    else Quote(q[0].0) + ":" + ValueJson(q[0].1) + "," + ParamList(q[1..])
  }

  /** JSON.stringify(req.query). */
  function Serialize(q: Query): string
  {
    "{" + ParamList(q) + "}"
  }

  /** The query the rewritten text stands for: every key and every string
      value whole-word marked. */
  function MarkValue(v: Value): Value
  {
    match v
    case Text(s) => Text(Marked(s))
    case Fields(fs) => Fields(MarkFields(fs))
  }

  function MarkFields(fs: seq<(string, string)>): (r: seq<(string, string)>)
    ensures |r| == |fs|
    ensures forall i :: 0 <= i < |fs| ==> r[i] == (Marked(fs[i].0), Marked(fs[i].1))
  {
    if fs == [] then [] else [(Marked(fs[0].0), Marked(fs[0].1))] + MarkFields(fs[1..])
  }

  function MarkQuery(q: Query): (r: Query)
    ensures |r| == |q|
    ensures forall i :: 0 <= i < |q| ==> r[i] == (Marked(q[i].0), MarkValue(q[i].1))
  {
    if q == [] then [] else [(Marked(q[0].0), MarkValue(q[0].1))] + MarkQuery(q[1..])
  }

  /** No control characters (which JSON.stringify writes as `\n`, `\u00..`
      and so on, gluing letters to the next word). */
  predicate Printable(s: string)
  {
    forall i :: 0 <= i < |s| ==> s[i] >= ' '
  }

  predicate ValuePrintable(v: Value)
  {
    match v
    case Text(t) => Printable(t)
    case Fields(fs) => forall j :: 0 <= j < |fs| ==> Printable(fs[j].0) && Printable(fs[j].1)
  }

  predicate QueryPrintable(q: Query)
  {
    forall i :: 0 <= i < |q| ==> Printable(q[i].0) && ValuePrintable(q[i].1)
  }


  lemma {:induction false} EscapeConcat(a: string, b: string)
    ensures Escape(a + b) == Escape(a) + Escape(b)
  {
    if a == [] {
      assert a + b == b;
    } else {
      assert (a + b)[1..] == a[1..] + b;
      EscapeConcat(a[1..], b);
    }
  }

  /** Escaping leaves word characters and `$` alone. */
  lemma {:induction false} EscapeKeeps(w: string)
    requires forall i :: 0 <= i < |w| ==> IsWordChar(w[i]) || w[i] == '$'
    ensures Escape(w) == w
  {
    if w != [] {
      EscapeKeeps(w[1..]);
    }
  }

  lemma {:induction false} EscapeMarked(s: string)
    requires Printable(s)
    ensures Marked(Escape(s)) == Escape(Marked(s))
    decreases |s|
  {
    if s != [] {
      if !IsWordChar(s[0]) {
        EscapeMarked(s[1..]);
        EscapeMarkedNonWord(s);
      } else {
        EscapeMarked(s[WordLen(s)..]);
        EscapeMarkedWord(s);
      }
    }
  }

  /** A printable non-word character escapes to non-word characters. */
  lemma {:induction false} EscapeNonWord(c: char)
    requires c >= ' ' && !IsWordChar(c)
    ensures EscapeChar(c) != []
    ensures forall i :: 0 <= i < |EscapeChar(c)| ==> !IsWordChar(EscapeChar(c)[i])
  {
  }

  lemma {:induction false} EscapeMarkedNonWord(s: string)
    requires Printable(s) && s != [] && !IsWordChar(s[0])
    requires Marked(Escape(s[1..])) == Escape(Marked(s[1..]))
    ensures Marked(Escape(s)) == Escape(Marked(s))
  {
    var e := EscapeChar(s[0]);
    EscapeNonWord(s[0]);
    MarkedSplit(e, Escape(s[1..]));
    MarkedNonWord(e);
    assert Marked(s) == [s[0]] + Marked(s[1..]);
    EscapeConcat([s[0]], Marked(s[1..]));
    assert Escape([s[0]]) == e + Escape([]);
  }

  /** A single word is marked as a whole. */
  lemma {:induction false} MarkedWholeWord(w: string)
    requires w != [] && forall i :: 0 <= i < |w| ==> IsWordChar(w[i])
    ensures Marked(w) == MarkWord(w)
  {
    WordLenConcat(w, []);
    assert w + [] == w;
    assert w[..|w|] == w && w[|w|..] == [];
  }

  lemma {:induction false} EscapeMarkedWord(s: string)
    requires Printable(s) && s != [] && IsWordChar(s[0])
    requires Marked(Escape(s[WordLen(s)..])) == Escape(Marked(s[WordLen(s)..]))
    ensures Marked(Escape(s)) == Escape(Marked(s))
  {
    MarkEscapedWord(s);
    EscapeMarkedWordHead(s);
  }

  /** Escaping keeps the leading word, which is then marked as a whole. */
  lemma {:induction false} MarkEscapedWord(s: string)
    requires Printable(s) && s != [] && IsWordChar(s[0])
    ensures Marked(Escape(s)) == MarkWord(s[..WordLen(s)]) + Marked(Escape(s[WordLen(s)..]))
  {
    var k := WordLen(s);
    var w, rest := s[..k], s[k..];
    assert s == w + rest;
    EscapeConcat(w, rest);
    EscapeKeeps(w);
    if rest != [] {
      EscapeNonWord(rest[0]);
      assert Escape(rest) == EscapeChar(rest[0]) + Escape(rest[1..]);
    }
    MarkedSplit(w, Escape(rest));
    MarkedWholeWord(w);
  }

  /** The marked leading word passes through escaping unchanged. */
  lemma {:induction false} EscapeMarkedWordHead(s: string)
    requires s != [] && IsWordChar(s[0])
    ensures Escape(Marked(s)) == MarkWord(s[..WordLen(s)]) + Escape(Marked(s[WordLen(s)..]))
  {
    var k := WordLen(s);
    MarkedAtWord(s);
    EscapeMarkWord(s[..k]);
    EscapeConcat(MarkWord(s[..k]), Marked(s[k..]));
  }

  /** A word, marked or not, has nothing to escape. */
  lemma {:induction false} EscapeMarkWord(w: string)
    requires forall i :: 0 <= i < |w| ==> IsWordChar(w[i])
    ensures Escape(MarkWord(w)) == MarkWord(w)
  {
    if IsOperator(w) {
      assert forall i :: 0 <= i < |"$" + w| ==> ("$" + w)[i] == '$' || IsWordChar(("$" + w)[i]);
    }
    EscapeKeeps(MarkWord(w));
  }

  lemma {:induction false} MarkedQuote(s: string)
    requires Printable(s)
    ensures Marked(Quote(s)) == Quote(Marked(s))
  {
    EscapeMarked(s);
    MarkedSplit("\"" + Escape(s), "\"");
    MarkedSplit("\"", Escape(s));
  }

  /** Marked passes through `x + sep + y` when `x` ends and `y` starts with
      a quote or a brace. */
  lemma {:induction false} MarkedJoin(x: string, sep: string, y: string)
    requires x != [] && !IsWordChar(x[|x| - 1])
    requires forall i :: 0 <= i < |sep| ==> !IsWordChar(sep[i])
    ensures Marked(x + sep + y) == Marked(x) + sep + Marked(y)
  {
    MarkedSplit(x, sep);
    MarkedNonWord(sep);
    if sep == [] {
      assert x + sep == x;
      MarkedSplit(x, y);
    } else {
      MarkedSplit(x + sep, y);
    }
  }

  lemma {:induction false} QuoteEnds(s: string)
    ensures Quote(s) != [] && Quote(s)[0] == '"' && Quote(s)[|Quote(s)| - 1] == '"'
  {
  }

  lemma {:induction false} MarkedFieldList(fs: seq<(string, string)>)
    requires forall j :: 0 <= j < |fs| ==> Printable(fs[j].0) && Printable(fs[j].1)
    ensures Marked(FieldList(fs)) == FieldList(MarkFields(fs))
  {
    if fs != [] {
      var k, v := fs[0].0, fs[0].1;
      MarkedQuote(k);
      MarkedQuote(v);
      QuoteEnds(k);
      QuoteEnds(v);
      MarkedJoin(Quote(k), ":", Quote(v));
      if |fs| > 1 {
        MarkedFieldList(fs[1..]);
        var head := Quote(k) + ":" + Quote(v);
        assert head[|head| - 1] == '"';
        MarkedJoin(head, ",", FieldList(fs[1..]));
        assert MarkFields(fs)[1..] == MarkFields(fs[1..]);
      }
    }
  }

  lemma {:induction false} MarkedValueJson(v: Value)
    requires ValuePrintable(v)
    ensures Marked(ValueJson(v)) == ValueJson(MarkValue(v))
    ensures ValueJson(v)[0] in "\"{" && ValueJson(v)[|ValueJson(v)| - 1] in "\"}"
  {
    match v
    case Text(s) =>
      MarkedQuote(s);
      QuoteEnds(s);
    case Fields(fs) =>
      MarkedFieldList(fs);
      MarkedSplit("{" + FieldList(fs), "}");
      MarkedSplit("{", FieldList(fs));
  }

  /** One `"key":value` member, marked. */
  lemma {:induction false} MarkedParam(k: string, v: Value)
    requires Printable(k) && ValuePrintable(v)
    ensures var m := Quote(k) + ":" + ValueJson(v);
      && Marked(m) == Quote(Marked(k)) + ":" + ValueJson(MarkValue(v))
      && m != [] && !IsWordChar(m[|m| - 1])
  {
    MarkedQuote(k);
    QuoteEnds(k);
    MarkedValueJson(v);
    MarkedJoin(Quote(k), ":", ValueJson(v));
  }

  lemma {:induction false} MarkedParamList(q: Query)
    requires QueryPrintable(q)
    ensures Marked(ParamList(q)) == ParamList(MarkQuery(q))
  {
    if q != [] {
      var k, v := q[0].0, q[0].1;
      MarkedParam(k, v);
      if |q| > 1 {
        assert QueryPrintable(q[1..]) by {
          forall i | 0 <= i < |q| - 1 ensures q[1..][i] == q[i + 1] { }
        }
        MarkedParamList(q[1..]);
        MarkedJoin(Quote(k) + ":" + ValueJson(v), ",", ParamList(q[1..]));
        assert MarkQuery(q)[1..] == MarkQuery(q[1..]);
      }
    }
  }


  /** The filter text handed to JSON.parse is the serialisation of the
      marked query: the rewrite turns each key and each string value that is
      a whole-word operator into its `$` form (`price[gte]=100` becomes
      { price: { $gte: "100" } }), key by key and value by value. */
  lemma {:induction false} FilterIsMarkedQuery(q: Query)
    requires QueryPrintable(q)
    ensures RewriteOperators(Serialize(q)) == Serialize(MarkQuery(q))
  {
    RewriteMarksWholeWords(Serialize(q));
    MarkedParamList(q);
    MarkedSplit("{" + ParamList(q), "}");
    MarkedSplit("{", ParamList(q));
  }

  // ------------------------------------------------------------------
  // The copy without the control parameters

  /** The parameters the handler deletes from its copy of the query. */
  const ControlParams: seq<string> := ["select", "sort", "page", "limit"]

  /** `delete copy[key]`. */
  function Without(q: Query, key: string): (r: Query)
    ensures forall p :: p in r <==> p in q && p.0 != key
  {
    if q == [] then []
    else if q[0].0 == key then Without(q[1..], key)
    else [q[0]] + Without(q[1..], key)
  }

  /** removeFields.forEach(param => delete reqQuery[param]) on a copy of
      the query. */
  method RemoveControlParams(q: Query) returns (r: Query)
    ensures forall p :: p in r <==> p in q && p.0 !in ControlParams
  {
    r := q;
    for i := 0 to |ControlParams|
      invariant forall p :: p in r <==> p in q && p.0 !in ControlParams[..i]
    {
      r := Without(r, ControlParams[i]);
    }
  }

  lemma {:induction false} ControlNameUnmarked(k: string)
    requires k == "select" || k == "sort" || k == "page" || k == "limit"
    ensures Marked(k) == k
  {
    if k == "select" || k == "sort" {
      SelectSortUnmarked(k);
    } else {
      PageLimitUnmarked(k);
    }
  }

  lemma {:induction false} SelectSortUnmarked(k: string)
    requires k == "select" || k == "sort"
    ensures Marked(k) == k
  {
    if k == "select" {
      MarkedWholeWord("select");
    } else {
      MarkedWholeWord("sort");
    }
  }

  lemma {:induction false} PageLimitUnmarked(k: string)
    requires k == "page" || k == "limit"
    ensures Marked(k) == k
  {
    if k == "page" {
      MarkedWholeWord("page");
    } else {
      MarkedWholeWord("limit");
    }
  }

  /** The marked query still carries the control parameters: none of their
      names is an operator, so a `page` key reaches the filter as it is. */
  lemma {:induction false} ControlParamsReachFilter(q: Query, i: nat)
    requires i < |q| && q[i].0 in ControlParams
    ensures (q[i].0, MarkValue(q[i].1)) in MarkQuery(q)
  {
    assert q[i].0 == "select" || q[i].0 == "sort" || q[i].0 == "page" || q[i].0 == "limit";
    ControlNameUnmarked(q[i].0);
    assert MarkQuery(q)[i] == (q[i].0, MarkValue(q[i].1));
  }

  // ------------------------------------------------------------------
  // parseInt(value, 10)

  predicate IsDigit(c: char)
  {
    '0' <= c <= '9'
  }

  function DigitRun(s: string): (n: nat)
    ensures n <= |s|
    ensures forall i :: 0 <= i < n ==> IsDigit(s[i])
    ensures n < |s| ==> !IsDigit(s[n])
  {
    if s != [] && IsDigit(s[0]) then 1 + DigitRun(s[1..]) else 0
  }

  /** The number a run of decimal digits denotes. */
  function DigitsValue(ds: string): nat
    requires forall i :: 0 <= i < |ds| ==> IsDigit(ds[i])
  {
    if ds == [] then 0
    else
      var last := ds[|ds| - 1];
      assert IsDigit(last);
      10 * DigitsValue(ds[..|ds| - 1]) + (last as int - '0' as int)
  }

  /** parseInt(s, 10): leading white space skipped, an optional sign, then the
      longest run of digits; None stands for NaN (no digit at all). */
  function ParseInt(s: string): (r: Option<int>)
  {
    var t := s[LeadingSpaces(s)..];
    var negative := t != [] && t[0] == '-';
    var body := if t != [] && (t[0] == '-' || t[0] == '+') then t[1..] else t;
    var n := DigitRun(body);
    if n == 0 then None
    else
      var magnitude: int := DigitsValue(body[..n]);
      Some(if negative then -magnitude else magnitude)
  }

  /** The decimal digits of a natural number. */
  function Decimal(n: nat): (s: string)
    ensures s != [] && forall i :: 0 <= i < |s| ==> IsDigit(s[i])
  {
    if n < 10 then [('0' as int + n) as char]
    else Decimal(n / 10) + [('0' as int + n % 10) as char]
  }

  lemma {:induction false} DecimalValue(n: nat)
    ensures DigitsValue(Decimal(n)) == n
  {
    if n >= 10 {
      DecimalValue(n / 10);
      var s := Decimal(n);
      assert s[..|s| - 1] == Decimal(n / 10);
    }
  }

  lemma {:induction false} DigitRunConcat(a: string, b: string)
    requires forall i :: 0 <= i < |a| ==> IsDigit(a[i])
    requires b == [] || !IsDigit(b[0])
    ensures DigitRun(a + b) == |a|
  {
    if a == [] {
      assert a + b == b;
    } else {
      assert (a + b)[1..] == a[1..] + b;
      DigitRunConcat(a[1..], b);
    }
  }

  /** parseInt reads back what the decimal form of a number writes. */
  lemma {:induction false} ParseDecimal(n: nat)
    ensures ParseInt(Decimal(n)) == Some(n)
  {
    var s := Decimal(n);
    assert LeadingSpaces(s) == 0;
    assert s[0..] == s;
    DecimalValue(n);
    DigitRunConcat(s, []);
    assert s + [] == s;
    assert s[..|s|] == s;
  }

  /** parseInt stops at the first character that is not a digit. */
  lemma {:induction false} ParseStopsAtNonDigit(n: nat, rest: string)
    requires rest == [] || !IsDigit(rest[0])
    ensures ParseInt(Decimal(n) + rest) == Some(n)
  {
    var s := Decimal(n);
    var t := s + rest;
    assert t[0] == s[0] && IsDigit(t[0]);
    assert LeadingSpaces(t) == 0;
    assert t[0..] == t;
    DecimalValue(n);
    DigitRunConcat(s, rest);
    assert t[..|s|] == s;
  }

  // ------------------------------------------------------------------
  // Pagination

  const DefaultPage := 1
  const DefaultLimit := 25
  const DefaultSort := "-createdAt"

  /** `parseInt(param, 10) || fallback`: NaN and 0 fall back. */
  function NumberOr(param: Option<string>, fallback: int): (r: int)
    ensures fallback != 0 ==> r != 0
  {
    var parsed := if param.Some? then ParseInt(param.value) else None;
    if parsed.None? || parsed.value == 0 then fallback else parsed.value
  }

  /** The page window: page, limit and the half-open index range
      [startIndex, endIndex) of the documents on that page. */
  datatype Window = Window(page: int, limit: int, startIndex: int, endIndex: int)

  function WindowOf(page: int, limit: int): Window
  {
    Window(page, limit, (page - 1) * limit, page * limit)
  }

  function PageWindow(pageParam: Option<string>, limitParam: Option<string>): (w: Window)
    ensures w.page != 0 && w.limit != 0
  {
    WindowOf(NumberOr(pageParam, DefaultPage), NumberOr(limitParam, DefaultLimit))
  }

  /** Without page and limit parameters the first 25 documents are listed. */
  lemma {:induction false} DefaultWindow()
    ensures PageWindow(None, None) == Window(1, 25, 0, 25)
  {
  }

  /** `?page=0` and an unparsable page both mean page 1. */
  lemma {:induction false} FallbackPages()
    ensures PageWindow(Some("0"), None).page == 1
    ensures PageWindow(Some("abc"), None).page == 1
  {
    ParseDecimal(0);
    assert Decimal(0) == "0";
    assert LeadingSpaces("abc") == 0 && "abc"[0..] == "abc";
  }

  /** `?page=3&limit=10` covers documents 20 to 29. */
  lemma {:induction false} ThirdPageOfTen()
    ensures PageWindow(Some("3"), Some("10")) == Window(3, 10, 20, 30)
  {
    ParseDecimal(3);
    assert Decimal(3) == "3";
    ParseDecimal(10);
    assert Decimal(10) == "10";
  }


  datatype PageRef = PageRef(page: int, limit: int)

  datatype Pagination = Pagination(next: Option<PageRef>, prev: Option<PageRef>)

  /** The pagination object: `next` when the window ends before `total`,
      `prev` when it starts after the first document. */
  function Paginate(w: Window, total: int): Pagination
  {
    Pagination(
      if w.endIndex < total then Some(PageRef(w.page + 1, w.limit)) else None,
      if w.startIndex > 0 then Some(PageRef(w.page - 1, w.limit)) else None)
  }

  /** For an ordinary page (page and limit at least 1): a next page is
      advertised exactly when that page would start inside the collection,
      and a previous page exactly when this is not the first page. The
      advertised pages are the neighbours with the same limit. */
  lemma {:induction false} PaginationMeaning(page: int, limit: int, total: int)
    requires page >= 1 && limit >= 1
    ensures var p := Paginate(WindowOf(page, limit), total);
      && (p.next.Some? <==> WindowOf(page + 1, limit).startIndex < total)
      && (p.prev.Some? <==> page > 1)
      && (p.next.Some? ==> p.next.value == PageRef(page + 1, limit))
      && (p.prev.Some? ==> p.prev.value == PageRef(page - 1, limit))
  {
    if page > 1 {
      assert (page - 1) * limit >= limit by {
        assert (page - 1) * limit == (page - 2) * limit + limit;
        assert (page - 2) * limit >= 0;
      }
    }
  }

  // ------------------------------------------------------------------
  // select / sort lists: value.split(",").join(" ")

  /** String.prototype.split with a one-character separator. */
  function Split(s: string, sep: char): (parts: seq<string>)
    ensures |parts| >= 1
    ensures forall i :: 0 <= i < |parts| ==> sep !in parts[i]
  {
    if s == [] then [""]
    else
      var rest := Split(s[1..], sep);
      if s[0] == sep then [""] + rest else [[s[0]] + rest[0]] + rest[1..]
  }

  /** Array.prototype.join with a one-character separator. */
  function Join(parts: seq<string>, sep: char): string
  {
    if parts == [] then ""
    else if |parts| == 1 then parts[0]
    else parts[0] + [sep] + Join(parts[1..], sep)
  }

  /** Every occurrence of `a` replaced by `b`. */
  function ReplaceChar(s: string, a: char, b: char): (r: string)
    ensures |r| == |s|
    ensures forall i :: 0 <= i < |s| ==> r[i] == if s[i] == a then b else s[i]
  {
    if s == [] then [] else [if s[0] == a then b else s[0]] + ReplaceChar(s[1..], a, b)
  }

  lemma {:induction false} JoinConsFirst(c: char, parts: seq<string>, sep: char)
    requires |parts| >= 1
    ensures Join([[c] + parts[0]] + parts[1..], sep) == [c] + Join(parts, sep)
  {
    var ps := [[c] + parts[0]] + parts[1..];
    if |parts| > 1 {
      assert ps[1..] == parts[1..];
    }
  }

  /** split(a).join(b) replaces every `a` by `b`: the comma lists of select
      and sort become the space-separated lists Mongoose expects. */
  lemma {:induction false} SplitJoin(s: string, a: char, b: char)
    ensures Join(Split(s, a), b) == ReplaceChar(s, a, b)
  {
    if s != [] {
      SplitJoin(s[1..], a, b);
      var rest := Split(s[1..], a);
      if s[0] == a {
        assert ([""] + rest)[1..] == rest;
      } else {
        JoinConsFirst(s[0], rest, b);
      }
    }
  }

  /** Splitting and joining with the same separator gives the text back. */
  lemma {:induction false} SplitJoinSame(s: string, a: char)
    ensures Join(Split(s, a), a) == s
  {
    SplitJoin(s, a, a);
  }

  // ------------------------------------------------------------------
  // The list handler up to the database call

  /** What the list handler hands to the database: the filter text, the
      projection, the sort, skip/limit, and the pagination object. */
  datatype ListPlan = ListPlan(
    filter: string,
    select: Option<string>,
    sort: string,
    skip: int,
    limit: int,
    pagination: Pagination)

  /** `req.query[name]` when it is a plain string. */
  function TextParam(q: Query, name: string): (r: Option<string>)
    ensures r.Some? ==> (name, Text(r.value)) in q
    // the first parameter under that name decides
    ensures forall i :: 0 <= i < |q| && q[i].0 == name && (forall j :: 0 <= j < i ==> q[j].0 != name) ==>
      r == (if q[i].1.Text? then Some(q[i].1.text) else None)
    ensures (forall i :: 0 <= i < |q| ==> q[i].0 != name) ==> r == None
  {
    if q == [] then None
    else if q[0].0 == name then (if q[0].1.Text? then Some(q[0].1.text) else None)
    else TextParam(q[1..], name)
  }

  /** A truthy string parameter (present and not empty). */
  function Truthy(v: Option<string>): bool
  {
    v.Some? && v.value != ""
  }

  /** getHotels / getHospitals up to the query execution. `total` is the
      number of documents in the whole collection (countDocuments() without
      the filter). */
  method PlanList(q: Query, total: int) returns (plan: ListPlan)
    ensures plan.filter == RewriteOperators(Serialize(q))
    ensures Truthy(TextParam(q, "select")) ==> plan.select == Some(ReplaceChar(TextParam(q, "select").value, ',', ' '))
    ensures !Truthy(TextParam(q, "select")) ==> plan.select == None
    ensures plan.sort == if Truthy(TextParam(q, "sort")) then ReplaceChar(TextParam(q, "sort").value, ',', ' ') else DefaultSort
    ensures var w := PageWindow(TextParam(q, "page"), TextParam(q, "limit"));
      && plan.skip == w.startIndex && plan.limit == w.limit
      && plan.pagination == Paginate(w, total)
  {
    // the copy is built and then never read: the filter uses the full query
    var reqQuery := RemoveControlParams(q);
    var queryStr := RewriteOperators(Serialize(q));
    var select := TextParam(q, "select");
    var fields: Option<string> := None;
    if Truthy(select) {
      SplitJoin(select.value, ',', ' ');
      fields := Some(Join(Split(select.value, ','), ' '));
    }
    var sortParam := TextParam(q, "sort");
    var sortBy := DefaultSort;
    if Truthy(sortParam) {
      SplitJoin(sortParam.value, ',', ' ');
      sortBy := Join(Split(sortParam.value, ','), ' ');
    }
    var w, pagination := Paging(TextParam(q, "page"), TextParam(q, "limit"), total);
    plan := ListPlan(queryStr, fields, sortBy, w.startIndex, w.limit, pagination);
  }

  /** The page arithmetic of the list handlers and the pagination object
      built from it. */
  method Paging(pageParam: Option<string>, limitParam: Option<string>, total: int) returns (w: Window, pagination: Pagination)
    ensures w == PageWindow(pageParam, limitParam)
    ensures pagination == Paginate(w, total)
  {
    var page := NumberOr(pageParam, DefaultPage);
    var limit := NumberOr(limitParam, DefaultLimit);
    var startIndex := (page - 1) * limit;
    var endIndex := page * limit;
    w := Window(page, limit, startIndex, endIndex);
    var next: Option<PageRef> := None;
    if endIndex < total {
      next := Some(PageRef(page + 1, limit));
    }
    var prev: Option<PageRef> := None;
    if startIndex > 0 {
      prev := Some(PageRef(page - 1, limit));
    }
    pagination := Pagination(next, prev);
  }
}
