/** Reading .env files: the parser, a printer it undoes, and the import of pairs. */
module EnvFile {
  import opened Common

  datatype Pair = Pair(key: string, value: string)

  const NL := '\n'
  const CR := '\r'
  const BACKSLASH := '\\'
  const QUOTE := '\"'
  const APOSTROPHE := '\''

  // ---- the text functions the parser is made of ----

  predicate IsSpace(c: char) {
    c == ' ' || c == '\t' || c == NL || c == '\U{0B}' || c == '\U{0C}' || c == CR
  }

  function TrimLeft(s: string): string {
    if s != "" && IsSpace(s[0]) then TrimLeft(s[1..]) else s
  }

  function TrimRight(s: string): string {
    if s != "" && IsSpace(s[|s| - 1]) then TrimRight(s[..|s| - 1]) else s
  }

  function TrimSpace(s: string): string {
    TrimRight(TrimLeft(s))
  }

  function TrimPrefix(s: string, p: string): string {
    if p <= s then s[|p|..] else s
  }

  function TrimCr(s: string): string {
    if s != "" && s[|s| - 1] == CR then s[..|s| - 1] else s
  }

  /** The parts between separators: one more than there are separators. */
  function Split(s: string, sep: char): (parts: seq<string>)
    ensures |parts| > 0
  {
    if s == "" then [""]
    else
      var rest := Split(s[1..], sep);
      if s[0] == sep then [""] + rest else [[s[0]] + rest[0]] + rest[1..]
  }

  function IndexOf(s: string, c: char): int {
    if s == "" then -1
    else if s[0] == c then 0
    else if IndexOf(s[1..], c) < 0 then -1
    else IndexOf(s[1..], c) + 1
  }

  /** Every occurrence of the pair `a b`, from the left, becomes `c`. */
  function ReplacePair(s: string, a: char, b: char, c: char): string {
    if |s| < 2 then s
    else if s[0] == a && s[1] == b then [c] + ReplacePair(s[2..], a, b, c)
    else [s[0]] + ReplacePair(s[1..], a, b, c)
  }

  // ---- the parser ----

  predicate Enclosed(v: string, mark: char) {
    |v| >= 2 && v[0] == mark && v[|v| - 1] == mark
  }

  function Unquote(v: string): string {
    if Enclosed(v, QUOTE) then ReplacePair(ReplacePair(v[1..|v| - 1], BACKSLASH, 'n', NL), BACKSLASH, QUOTE, QUOTE)
    else if Enclosed(v, APOSTROPHE) then v[1..|v| - 1]
    else v
  }

  function ParseLine(raw: string): Option<Pair> {
    var line := TrimSpace(TrimCr(raw));
    if line == "" || line[0] == '#' then None
    else
      var body := TrimPrefix(line, "export ");
      var i := IndexOf(body, '=');
      if !(0 < i < |body|) then None
      else
        var key := TrimSpace(body[..i]);
        if key == "" then None else Some(Pair(key, Unquote(TrimSpace(body[i + 1..]))))
  }

  /** A line holds a pair exactly if, but for surrounding whitespace and a leading "export",
      it is neither blank nor a comment and has an equals sign after something that is not
      blank; the first such sign parts key and value. */
  lemma LineExactly(raw: string, p: Pair)
    ensures var line := TrimSpace(TrimCr(raw));
      var body := if "export " <= line then line[7..] else line;
      ParseLine(raw) == Some(p) <==>
        && line != "" && line[0] != '#'
        && exists i ::
             && FirstSign(body, i) && p.key != ""
             && p == Pair(TrimSpace(body[..i]), Unquote(TrimSpace(body[i + 1..])))
  {
    var line := TrimSpace(TrimCr(raw));
    var body := if "export " <= line then line[7..] else line;
    assert body == TrimPrefix(line, "export ");
    SignIs(body);
    if i :| FirstSign(body, i) {
      SignIsFirst(body, i);
      assert i == 0 ==> TrimSpace(body[..i]) == "";
    }
    hide TrimSpace, TrimCr, Unquote, TrimPrefix;
  }

  predicate FirstSign(s: string, i: int) {
    0 <= i < |s| && s[i] == '=' && forall j | 0 <= j < i :: s[j] != '='
  }

  lemma {:induction false} SignIs(s: string)
    ensures IndexOf(s, '=') >= 0 ==> FirstSign(s, IndexOf(s, '='))
    ensures IndexOf(s, '=') < 0 ==> forall j | 0 <= j < |s| :: s[j] != '='
  {
    if s != "" {
      SignIs(s[1..]);
    }
  }

  lemma SignIsFirst(s: string, i: int)
    requires FirstSign(s, i)
    ensures IndexOf(s, '=') == i
  {
    SignIs(s);
  }

  function ParseLines(lines: seq<string>): seq<Pair> {
    if lines == [] then []
    else
      var p := ParseLine(lines[0]);
      (if p.Some? then [p.value] else []) + ParseLines(lines[1..])
  }

  lemma {:induction false} ParseOneMore(lines: seq<string>, raw: string)
    ensures ParseLines(lines + [raw]) ==
      ParseLines(lines) + (if ParseLine(raw).Some? then [ParseLine(raw).value] else [])
  {
    hide ParseLine;
    if lines == [] {
      assert lines + [raw] == [raw];
      assert [raw][1..] == [];
    } else {
      assert (lines + [raw])[1..] == lines[1..] + [raw];
      ParseOneMore(lines[1..], raw);
    }
  }

  method ParseEnv(content: string) returns (out: seq<Pair>)
    ensures out == ParseLines(Split(content, NL))
  {
    hide TrimSpace, TrimCr, TrimPrefix, IndexOf, Unquote, Split;
    out := [];
    var lines := Split(content, NL);
    for i := 0 to |lines|
      invariant out == ParseLines(lines[..i])
    {
      assert lines[..i + 1] == lines[..i] + [lines[i]];
      ParseOneMore(lines[..i], lines[i]);
      var line := TrimSpace(TrimCr(lines[i]));
      if line == "" || line[0] == '#' {
        continue;
      }
      line := TrimPrefix(line, "export ");
      var eq := IndexOf(line, '=');
      IndexInside(line, '=');
      if eq <= 0 {
        continue;
      }
      var key := TrimSpace(line[..eq]);
      var val := Unquote(TrimSpace(line[eq + 1..]));
      if key != "" {
        out := out + [Pair(key, val)];
      }
    }
    assert lines[..|lines|] == lines;
  }

  lemma IndexInside(s: string, c: char)
    ensures -1 <= IndexOf(s, c) < |s|
    ensures IndexOf(s, c) >= 0 ==> s[IndexOf(s, c)] == c
  {
  }

  // ---- a printer ----

  function QuoteEscaped(c: char): string {
    if c == QUOTE then [BACKSLASH, QUOTE] else [c]
  }

  function Escaped(c: char): string {
    if c == NL then [BACKSLASH, 'n'] else QuoteEscaped(c)
  }

  function Escape(v: string): string {
    if v == "" then "" else Escaped(v[0]) + Escape(v[1..])
  }

  function EscapeQuotes(v: string): string {
    if v == "" then "" else QuoteEscaped(v[0]) + EscapeQuotes(v[1..])
  }

  function Quoted(v: string): string {
    [QUOTE] + Escape(v) + [QUOTE]
  }

  /** Reading a quoted value gives the value, except that a backslash before an n
      in the value itself is taken for a newline. */
  lemma UnquoteQuoted(v: string)
    ensures Unquote(Quoted(v)) == ReplacePair(v, BACKSLASH, 'n', NL)
  {
    assert Quoted(v)[1..|Quoted(v)| - 1] == Escape(v);
    NewlinesComeBack(v);
    QuotesComeBack(ReplacePair(v, BACKSLASH, 'n', NL));
  }

  lemma {:induction false} NewlinesComeBack(v: string)
    ensures ReplacePair(Escape(v), BACKSLASH, 'n', NL) == EscapeQuotes(ReplacePair(v, BACKSLASH, 'n', NL))
    decreases |v|
  {
    if |v| >= 2 && v[0] == BACKSLASH && v[1] == 'n' {
      assert v[1..][1..] == v[2..];
      assert Escape(v) == [BACKSLASH, 'n'] + Escape(v[2..]);
      NewlinesComeBack(v[2..]);
    } else if v != "" {
      NewlinesComeBack(v[1..]);
      EscapedComesBack(v[0], Escape(v[1..]));
    }
  }

  lemma ReplaceMisses(head: char, rest: string, a: char, b: char, c: char)
    requires head != a || rest == "" || rest[0] != b
    ensures ReplacePair([head] + rest, a, b, c) == [head] + ReplacePair(rest, a, b, c)
  {
    assert ([head] + rest)[1..] == rest;
  }

  lemma ReplaceMissesTwo(x: char, y: char, rest: string, a: char, b: char, c: char)
    requires y != a && y != b
    ensures ReplacePair([x, y] + rest, a, b, c) == [x, y] + ReplacePair(rest, a, b, c)
  {
    var s := [x, y] + rest;
    assert s[1..] == [y] + rest;
    ReplaceMisses(y, rest, a, b, c);
    assert ReplacePair(s, a, b, c) == [x] + ReplacePair(s[1..], a, b, c);
  }

  lemma ReplaceHits(rest: string, a: char, b: char, c: char)
    ensures ReplacePair([a, b] + rest, a, b, c) == [c] + ReplacePair(rest, a, b, c)
  {
    assert ([a, b] + rest)[2..] == rest;
  }

  /** One escaped character, unless it is a backslash before an n. */
  lemma EscapedComesBack(c: char, rest: string)
    requires c != BACKSLASH || rest == "" || rest[0] != 'n'
    ensures ReplacePair(Escaped(c) + rest, BACKSLASH, 'n', NL) ==
      QuoteEscaped(c) + ReplacePair(rest, BACKSLASH, 'n', NL)
  {
    if c == NL {
      ReplaceHits(rest, BACKSLASH, 'n', NL);
    } else if c == QUOTE {
      ReplaceMissesTwo(BACKSLASH, QUOTE, rest, BACKSLASH, 'n', NL);
    } else {
      ReplaceMisses(c, rest, BACKSLASH, 'n', NL);
    }
  }

  lemma {:induction false} QuotesComeBack(w: string)
    ensures ReplacePair(EscapeQuotes(w), BACKSLASH, QUOTE, QUOTE) == w
    decreases |w|
  {
    if w != "" {
      QuotesComeBack(w[1..]);
    }
  }

  predicate HasPair(s: string, a: char, b: char) {
    exists i | 0 <= i < |s| - 1 :: s[i] == a && s[i + 1] == b
  }

  lemma {:induction false} ReplacesExactly(s: string, a: char, b: char, c: char)
    ensures |ReplacePair(s, a, b, c)| <= |s|
    ensures HasPair(s, a, b) ==> |ReplacePair(s, a, b, c)| < |s|
    ensures !HasPair(s, a, b) ==> ReplacePair(s, a, b, c) == s
    decreases |s|
  {
    if |s| >= 2 && s[0] == a && s[1] == b {
      ReplacesExactly(s[2..], a, b, c);
    } else if |s| >= 2 {
      ReplacesExactly(s[1..], a, b, c);
      assert HasPair(s, a, b) ==> HasPair(s[1..], a, b) by {
        if HasPair(s, a, b) {
          var i :| 0 <= i < |s| - 1 && s[i] == a && s[i + 1] == b;
          assert s[1..][i - 1] == a && s[1..][i] == b;
        }
      }
    }
  }

  /** Quoting loses nothing exactly from values without a backslash before an n. */
  lemma QuotingRoundTrip(v: string)
    ensures Unquote(Quoted(v)) == v <==> !HasPair(v, BACKSLASH, 'n')
  {
    UnquoteQuoted(v);
    ReplacesExactly(v, BACKSLASH, 'n', NL);
  }

  // ---- trimming ----

  predicate AllSpace(s: string) {
    forall i | 0 <= i < |s| :: IsSpace(s[i])
  }

  predicate IsTrimmed(s: string) {
    s != "" ==> !IsSpace(s[0]) && !IsSpace(s[|s| - 1])
  }

  lemma {:induction false} TrimLeftIs(a: string, m: string)
    requires AllSpace(a) && (m != "" ==> !IsSpace(m[0]))
    ensures TrimLeft(a + m) == m
  {
    if a == "" {
      assert a + m == m;
    } else {
      assert (a + m)[1..] == a[1..] + m;
      TrimLeftIs(a[1..], m);
    }
  }

  lemma {:induction false} TrimRightIs(m: string, b: string)
    requires AllSpace(b) && (m != "" ==> !IsSpace(m[|m| - 1]))
    ensures TrimRight(m + b) == m
  {
    if b == "" {
      assert m + b == m;
    } else {
      assert (m + b)[..|m + b| - 1] == m + b[..|b| - 1];
      TrimRightIs(m, b[..|b| - 1]);
    }
  }

  lemma TrimSpaceIs(a: string, m: string, b: string)
    requires AllSpace(a) && IsTrimmed(m) && AllSpace(b)
    ensures TrimSpace(a + m + b) == m
  {
    if m == "" {
      TrimLeftIs(a + b, "");
      assert a + m + b == a + b + "";
    } else {
      assert a + m + b == a + (m + b);
      TrimLeftIs(a, m + b);
      TrimRightIs(m, b);
    }
  }

  /** A trailing carriage return makes no difference. */
  lemma LineIs(a: string, m: string, b: string)
    requires AllSpace(a) && IsTrimmed(m) && AllSpace(b)
    ensures TrimSpace(TrimCr(a + m + b)) == m
  {
    var line := a + m + b;
    if b != "" {
      var b' := if b[|b| - 1] == CR then b[..|b| - 1] else b;
      assert TrimCr(line) == a + m + b';
      TrimSpaceIs(a, m, b');
    } else if m != "" {
      assert TrimCr(line) == line;
      TrimSpaceIs(a, m, b);
    } else {
      var a' := TrimCr(a);
      assert line == a && a' == a' + "" + "";
      TrimSpaceIs(a', "", "");
    }
  }

  // ---- printed files ----

  datatype Style = Double | Single | Bare

  /** A line of a file: an assignment with its spacing, a carriage return counting
      as space, or a line without one. */
  datatype Item =
    | Aside(text: string)
    | Assign(pair: Pair, style: Style, exported: bool, before: string, left: string, right: string, after: string)

  function Shown(style: Style, v: string): string {
    match style
    case Double => Quoted(v)
    case Single => [APOSTROPHE] + v + [APOSTROPHE]
    case Bare => v
  }

  function Line(item: Item): string {
    match item
    case Aside(text) => text
    case Assign(p, style, exported, before, left, right, after) =>
      before + ((if exported then "export " else "") + p.key + left + "=" + right + Shown(style, p.value)) + after
  }

  predicate Gap(s: string) {
    AllSpace(s) && NL !in s
  }

  /** Single quotes keep everything but newlines; a bare value also has to look
      neither padded nor quoted. */
  predicate Fits(style: Style, v: string) {
    match style
    case Double => true
    case Single => NL !in v
    case Bare => NL !in v && IsTrimmed(v) && !Enclosed(v, QUOTE) && !Enclosed(v, APOSTROPHE)
  }

  predicate Printable(item: Item) {
    match item
    case Aside(text) => NL !in text && var t := TrimSpace(TrimCr(text)); t == "" || t[0] == '#'
    case Assign(p, style, exported, before, left, right, after) =>
      && Gap(before) && Gap(left) && Gap(right) && Gap(after)
      && Fits(style, p.value)
      && p.key != "" && IsTrimmed(p.key) && '=' !in p.key && NL !in p.key
      && (!exported ==> p.key[0] != '#' && !("export " <= p.key + left))
  }

  /** What the reader makes of an item. */
  function Understood(item: Item): Option<Pair> {
    match item
    case Aside(_) => None
    case Assign(p, style, _, _, _, _, _) =>
      Some(if style.Double? then p.(value := ReplacePair(p.value, BACKSLASH, 'n', NL)) else p)
  }

  lemma ValueComesBack(item: Item)
    requires Printable(item) && item.Assign?
    ensures IsTrimmed(Shown(item.style, item.pair.value))
    ensures Unquote(Shown(item.style, item.pair.value)) == Understood(item).value.value
  {
    var v := item.pair.value;
    if item.style.Double? {
      UnquoteQuoted(v);
    } else if item.style.Single? {
      assert Shown(item.style, v)[1..|v| + 1] == v;
    }
  }

  lemma IndexFirst(k: string, rest: string)
    requires '=' !in k
    ensures IndexOf(k + "=" + rest, '=') == |k|
  {
    if k == "" {
      assert k + "=" + rest == "=" + rest;
    } else {
      assert (k + "=" + rest)[1..] == k[1..] + "=" + rest;
      IndexFirst(k[1..], rest);
    }
  }

  /** What an assignment is, outer spacing apart. */
  function Core(item: Item): string
    requires item.Assign?
  {
    (if item.exported then "export " else "") + (KeyPart(item) + "=" + Rest(item))
  }

  function KeyPart(item: Item): string
    requires item.Assign?
  {
    item.pair.key + item.left
  }

  function Rest(item: Item): string
    requires item.Assign?
  {
    var v := Shown(item.style, item.pair.value);
    if v == "" then "" else item.right + v
  }

  function Tail(item: Item): string
    requires item.Assign?
  {
    if Shown(item.style, item.pair.value) == "" then item.right + item.after else item.after
  }

  lemma LineShape(item: Item)
    requires item.Assign?
    ensures Line(item) == item.before + Core(item) + Tail(item)
  {
    var v := Shown(item.style, item.pair.value);
    var h := (if item.exported then "export " else "") + item.pair.key + item.left + "=";
    hide Shown;
    if v == "" {
      assert Line(item) == item.before + h + item.right + item.after;
      assert Core(item) == h;
    } else {
      assert Line(item) == item.before + h + item.right + v + item.after;
      assert Core(item) == h + item.right + v;
    }
  }

  lemma CoreIsTrimmed(item: Item)
    requires Printable(item) && item.Assign?
    ensures Core(item) != "" && Core(item)[0] != '#' && IsTrimmed(Core(item)) && AllSpace(Tail(item))
  {
    ValueComesBack(item);
    hide Shown, Unquote, ReplacePair;
  }

  lemma CoreSplits(item: Item)
    requires Printable(item) && item.Assign?
    ensures TrimPrefix(Core(item), "export ") == KeyPart(item) + "=" + Rest(item)
    ensures IndexOf(KeyPart(item) + "=" + Rest(item), '=') == |KeyPart(item)|
  {
    var k, r := KeyPart(item), Rest(item);
    IndexFirst(k, r);
    if item.exported {
      assert Core(item)[|"export "|..] == k + "=" + r;
    } else {
      assert Core(item) == k + "=" + r;
      PrefixInside(k, r);
    }
  }

  lemma PartsComeBack(item: Item)
    requires Printable(item) && item.Assign?
    ensures TrimSpace(KeyPart(item)) == item.pair.key
    ensures Unquote(TrimSpace(Rest(item))) == Understood(item).value.value
  {
    var v, r := Shown(item.style, item.pair.value), Rest(item);
    ValueComesBack(item);
    assert KeyPart(item) == "" + item.pair.key + item.left;
    TrimSpaceIs("", item.pair.key, item.left);
    if r == "" {
      assert r == "" + v + "";
      TrimSpaceIs("", v, "");
    } else {
      assert r == item.right + v + "";
      TrimSpaceIs(item.right, v, "");
    }
  }

  lemma PrefixInside(k: string, r: string)
    ensures "export " <= k + "=" + r ==> "export " <= k
  {
    var s, e := k + "=" + r, "export ";
    if e <= s {
      assert forall j | 0 <= j < |e| :: e[j] == s[j] && s[j] != '=';
      assert s[|k|] == '=';
      assert k == s[..|k|];
    }
  }

  lemma KeyAndRest(k: string, r: string)
    ensures (k + "=" + r)[..|k|] == k && (k + "=" + r)[|k| + 1..] == r
  {
  }

  lemma LineParses(item: Item)
    requires Printable(item)
    ensures ParseLine(Line(item)) == Understood(item)
  {
    if item.Assign? {
      assert item.pair.key != "" && AllSpace(item.before);
      LineShape(item);
      CoreIsTrimmed(item);
      LineIs(item.before, Core(item), Tail(item));
      CoreSplits(item);
      PartsComeBack(item);
      KeyAndRest(KeyPart(item), Rest(item));
      hide TrimSpace, TrimCr, IndexOf, Unquote, TrimPrefix, Line, Core;
      hide KeyPart, Rest, Tail, Printable, ReplacePair, AllSpace, IsTrimmed;
    }
  }

  // ---- whole files ----

  function Join(lines: seq<string>): string {
    if lines == [] then "" else if |lines| == 1 then lines[0] else lines[0] + [NL] + Join(lines[1..])
  }

  function Lines(items: seq<Item>): seq<string> {
    seq(|items|, i requires 0 <= i < |items| => Line(items[i]))
  }

  function Print(items: seq<Item>): string {
    Join(Lines(items))
  }

  function Pairs(items: seq<Item>): seq<Pair> {
    if items == [] then []
    else (if Understood(items[0]).Some? then [Understood(items[0]).value] else []) + Pairs(items[1..])
  }

  lemma {:induction false} SplitLine(l: string, rest: string)
    requires NL !in l
    ensures Split(l, NL) == [l]
    ensures Split(l + [NL] + rest, NL) == [l] + Split(rest, NL)
  {
    var s := l + [NL] + rest;
    if l == "" {
      assert s[1..] == rest;
    } else {
      assert s[1..] == l[1..] + [NL] + rest;
      SplitLine(l[1..], rest);
      assert [l[0]] + l[1..] == l;
    }
  }

  lemma {:induction false} SplitJoined(lines: seq<string>)
    requires lines != [] && forall i | 0 <= i < |lines| :: NL !in lines[i]
    ensures Split(Join(lines), NL) == lines
    decreases |lines|
  {
    SplitLine(lines[0], Join(lines[1..]));
    if |lines| > 1 {
      SplitJoined(lines[1..]);
    }
  }

  lemma {:induction false} EscapeHasNoNewline(v: string)
    ensures NL !in Escape(v)
  {
    if v != "" {
      EscapeHasNoNewline(v[1..]);
    }
  }

  lemma LineHasNoNewline(item: Item)
    requires Printable(item)
    ensures NL !in Line(item)
  {
    if item.Assign? && item.style.Double? {
      EscapeHasNoNewline(item.pair.value);
    }
  }

  lemma {:induction false} LinesParse(items: seq<Item>)
    requires forall i | 0 <= i < |items| :: Printable(items[i])
    ensures ParseLines(Lines(items)) == Pairs(items)
    decreases |items|
  {
    hide ParseLine, Line, Printable, Understood;
    if items != [] {
      LineParses(items[0]);
      LinesParse(items[1..]);
      assert Lines(items)[1..] == Lines(items[1..]);
    }
  }

  /** Reading undoes printing: for every list of items, with comments, blanks,
      exports, carriage returns and spacing anywhere, the pairs come back in order,
      with newlines and quotes inside quoted values; only a backslash before an n
      in a double-quoted value is not kept. */
  lemma ReadingUndoesPrinting(items: seq<Item>)
    requires forall i | 0 <= i < |items| :: Printable(items[i])
    ensures ParseLines(Split(Print(items), NL)) == Pairs(items)
  {
    LinesParse(items);
    assert ParseLine("").None?;
    hide ParseLine, Line, Printable, Understood, Pairs;
    forall i | 0 <= i < |items| ensures NL !in Lines(items)[i] {
      LineHasNoNewline(items[i]);
    }
    if items != [] {
      SplitJoined(Lines(items));
    } else {
      ParseOneMore([], "");
      assert [] + [""] == [""];
    }
  }
}
