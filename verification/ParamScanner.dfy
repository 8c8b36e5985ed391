// Reading the parameter list of a C++ function: types, names and default values.

module ParamScanner {

  datatype Param = Param(typ: string, name: string, defv: string)

  /** The list that was read, or the exception that ended the reading. */
  datatype Result = Params(params: seq<Param>) | ValueError | IndexError

  datatype ReadState = Type | Name | Defv

  /** The variables of the loop. `_scan_param_list` never raises its quote flag, so
      quotes are characters like any other. */
  datatype State = State(
    i: nat, readState: ReadState, parens: nat, brackets: int,
    typ: string, name: string, defv: string, list: seq<Param>)

  datatype Step = Go(next: State) | Halt(result: Result)

  predicate IsSpace(ch: char) {
    ch == ' ' || ch == '\t' || ch == '\n' || ch == '\r' || ch == '\U{00000C}' || ch == '\U{00000B}'
  }

  /** The first position from `i` on that holds no white space. */
  function SkipSpace(c: string, i: nat): (j: nat)
    requires i <= |c|
    ensures i <= j <= |c|
    ensures j < |c| ==> !IsSpace(c[j])
    ensures i < |c| && IsSpace(c[i]) ==> i < j
    ensures i < |c| && !IsSpace(c[i]) ==> i == j
    decreases |c| - i
  {
    if i < |c| && IsSpace(c[i]) then SkipSpace(c, i + 1) else i
  }

  /** One turn of the loop. */
  function Turn(c: string, s: State): Step {
    if s.i >= |c| then Halt(IndexError)
    else
      var ch := c[s.i];
      if ch == ')' && s.parens == 0 then
        if s.readState.Type? then Halt(ValueError)
        else Halt(Params(s.list + [Param(s.typ, s.name, s.defv)]))
      else
        var t := s.(parens := if ch == ')' then s.parens - 1 else if ch == '(' then s.parens + 1 else s.parens);
        match s.readState
        case Type => TypeTurn(c, t, ch)
        case Name => NameTurn(t, ch)
        case Defv => DefvTurn(t, ch)
  }

  function TypeTurn(c: string, s: State, ch: char): Step
    requires s.i < |c|
  {
    var t := s.(brackets := if ch == '<' then s.brackets + 1 else if ch == '>' then s.brackets - 1 else s.brackets);
    if ch == '&' then Go(t.(i := t.i + 1))
    else if IsSpace(ch) && t.brackets == 0 then
      var j := SkipSpace(c, t.i);
      if j == |c| then Halt(IndexError)
      else if t.typ == "const" || t.typ == "" then Go(t.(i := j, typ := ""))
      else if t.typ == "unsigned" then Go(t.(i := j, typ := t.typ + " "))
      else Go(t.(i := j, readState := Name))
    else Go(t.(i := t.i + 1, typ := t.typ + [ch]))
  }

  /** A comma after the name starts the default value without being consumed. */
  function NameTurn(s: State, ch: char): Step {
    if ch == '&' || IsSpace(ch) then Go(s.(i := s.i + 1))
    else if ch == '=' then
      if s.parens != 0 then Halt(ValueError) else Go(s.(i := s.i + 1, readState := Defv))
    else if ch == ',' then
      if s.parens != 0 then Halt(ValueError) else Go(s.(readState := Defv))
    else Go(s.(i := s.i + 1, name := s.name + [ch]))
  }

  function DefvTurn(s: State, ch: char): Step {
    if ch == ',' then
      if s.parens != 0 then Halt(ValueError)
      else Go(s.(i := s.i + 1, readState := Type, list := s.list + [Param(s.typ, s.name, s.defv)],
                 typ := "", name := "", defv := ""))
    else Go(s.(i := s.i + 1, defv := s.defv + [ch]))
  }

  /** What is left to do: every turn consumes a character, or goes on from a name to
      its default value. */
  function Rank(s: State): nat {
    if s.readState.Name? then 1 else 0
  }

  lemma TurnAdvances(c: string, s: State)
    ensures var step := Turn(c, s);
            step.Go? ==> s.i < |c| && (s.i < step.next.i <= |c| || (s.i == step.next.i && Rank(step.next) < Rank(s)))
  {
  }

  function Scan(c: string, s: State): Result
    requires s.i <= |c|
    decreases |c| - s.i, Rank(s)
  {
    TurnAdvances(c, s);
    match Turn(c, s)
    case Halt(result) => result
    case Go(next) => Scan(c, next)
  }

  function Begin(i: nat): State {
    State(i, Type, 0, 0, "", "", "", [])
  }

  function ScanFrom(c: string, start: nat): Result {
    if start >= |c| then IndexError
    else if c[start] != '(' then ValueError
    else Scan(c, Begin(start + 1))
  }

  /** One turn that goes on does not change what the scan returns. */
  lemma ScanGoes(c: string, s: State, next: State)
    requires s.i <= |c| && Turn(c, s) == Go(next)
    ensures next.i <= |c| && Scan(c, s) == Scan(c, next)
  {
    hide SkipSpace, TypeTurn, NameTurn, DefvTurn;
    TurnAdvances(c, s);
  }

  lemma ScanHalts(c: string, s: State)
    requires s.i <= |c| && Turn(c, s).Halt?
    ensures Scan(c, s) == Turn(c, s).result
  {
    hide SkipSpace, TypeTurn, NameTurn, DefvTurn;
  }

  lemma ScanBegins(c: string, start: nat)
    requires start < |c| && c[start] == '('
    ensures ScanFrom(c, start) == Scan(c, Begin(start + 1))
  {
  }

  method PastSpace(c: string, start: nat) returns (i: nat)
    requires start <= |c|
    ensures i == SkipSpace(c, start)
  {
    i := start;
    while i < |c| && IsSpace(c[i])
      invariant start <= i <= |c| && SkipSpace(c, i) == SkipSpace(c, start)
    {
      i := i + 1;
    }
  }

  /** The loop over the header file. */
  method ScanParamList(c: string, start: nat) returns (result: Result)
    ensures result == ScanFrom(c, start)
  {
    hide Scan, SkipSpace;
    if start >= |c| || c[start] != '(' {
      return if start >= |c| then IndexError else ValueError;
    }
    ScanBegins(c, start);
    var i, readState: ReadState, parens: nat, brackets: int := start + 1, Type, 0, 0;
    var typ, name, defv, list := "", "", "", [];
    while true
      invariant i <= |c|
      invariant Scan(c, State(i, readState, parens, brackets, typ, name, defv, list)) == ScanFrom(c, start)
      decreases |c| - i, if readState.Name? then 1 else 0
    {
      ghost var before := State(i, readState, parens, brackets, typ, name, defv, list);
      TurnAdvances(c, before);
      if Turn(c, before).Halt? {
        ScanHalts(c, before);
      }
      if i >= |c| {
        return IndexError;
      }
      if c[i] == ')' {
        if parens == 0 {
          if readState == Type {
            return ValueError;
          }
          return Params(list + [Param(typ, name, defv)]);
        }
        parens := parens - 1;
      } else if c[i] == '(' {
        parens := parens + 1;
      }
      match readState {
        case Type =>
          if c[i] == '<' {
            brackets := brackets + 1;
          }
          if c[i] == '>' {
            brackets := brackets - 1;
          }
          if c[i] == '&' {
            i := i + 1;
          } else if IsSpace(c[i]) && brackets == 0 {
            i := PastSpace(c, i);
            if i == |c| {
              return IndexError;
            }
            if typ == "const" || typ == "" {
              typ := "";
            } else if typ == "unsigned" {
              typ := typ + " ";
            } else {
              readState := Name;
            }
          } else {
            typ := typ + [c[i]];
            i := i + 1;
          }
        case Name =>
          if c[i] == '&' || IsSpace(c[i]) {
            i := i + 1;
          } else if c[i] == '=' || c[i] == ',' {
            if parens != 0 {
              return ValueError;
            }
            readState := Defv;
            if c[i] == '=' {
              i := i + 1;
            }
          } else {
            name := name + [c[i]];
            i := i + 1;
          }
        case Defv =>
          if c[i] == ',' && parens != 0 {
            return ValueError;
          } else if c[i] == ',' {
            readState := Type;
            list := list + [Param(typ, name, defv)];
            typ, name, defv := "", "", "";
          } else {
            defv := defv + [c[i]];
          }
          i := i + 1;
      }
      ScanGoes(c, before, State(i, readState, parens, brackets, typ, name, defv, list));
    }
  }

  // ----------------------------------------------------------------- rendering

  /** White space: a space, a tab, a line feed, a carriage return, a form feed or a vertical
      tab. */
  predicate White(ch: char) {
    ch in {' ', '\t', '\n', '\r', '\U{00000C}', '\U{00000B}'}
  }

  predicate WhiteRun(w: string) {
    forall k :: 0 <= k < |w| ==> White(w[k])
  }

  lemma SpaceIsWhite(ch: char)
    ensures IsSpace(ch) <==> White(ch)
  {
  }

  /** A type without white space at the top level, whose angle brackets balance, seen
      from inside `depth` of them. */
  predicate TypeText(t: string, depth: nat) {
    if t == "" then depth == 0
    else
      && t[0] != '&' && t[0] != '(' && t[0] != ')'
      && (White(t[0]) ==> depth > 0)
      && (t[0] == '>' ==> depth > 0)
      && TypeText(t[1..], if t[0] == '<' then depth + 1 else if t[0] == '>' then depth - 1 else depth)
  }

  predicate PlainType(t: string) {
    || (TypeText(t, 0) && t != "" && t != "const" && t != "unsigned")
    || (|t| > 9 && t[..9] == "unsigned " && TypeText(t[9..], 0))
  }

  predicate NameChar(ch: char) {
    !White(ch) && ch != '&' && ch != '=' && ch != ',' && ch != '(' && ch != ')'
  }

  predicate PlainName(n: string) {
    forall k :: 0 <= k < |n| ==> NameChar(n[k])
  }

  /** Part of a default value, without commas, that leads from inside `depth` parentheses
      to inside `end` of them. */
  predicate DefaultPart(d: string, depth: nat, end: nat) {
    if d == "" then depth == end
    else
      && d[0] != ','
      && (d[0] == ')' ==> depth > 0)
      && DefaultPart(d[1..], if d[0] == '(' then depth + 1 else if d[0] == ')' then depth - 1 else depth, end)
  }

  /** A default value has no commas, and its parentheses balance. */
  predicate PlainParam(p: Param) {
    PlainType(p.typ) && p.name != "" && PlainName(p.name) && DefaultPart(p.defv, 0, 0)
  }

  /** The ampersand of a reference stands behind its type or before its name. */
  datatype Ref = NoRef | RefToType | RefToName

  /** The white space of a declaration; some of it may be empty. */
  datatype Layout = Layout(
    before: string, afterConst: string, afterUnsigned: string, beforeName: string, afterName: string)

  predicate PlainLayout(l: Layout) {
    && WhiteRun(l.before) && WhiteRun(l.afterConst) && WhiteRun(l.afterUnsigned)
    && WhiteRun(l.beforeName) && WhiteRun(l.afterName)
    && l.afterConst != "" && l.afterUnsigned != "" && l.beforeName != ""
  }

  /** A parameter as it is declared: it may be constant, and a reference. */
  datatype Declared = Declared(param: Param, isConst: bool, ref: Ref, layout: Layout)

  predicate Plain(d: Declared) {
    PlainParam(d.param) && PlainLayout(d.layout)
  }

  predicate AllPlain(ds: seq<Declared>) {
    forall k :: 0 <= k < |ds| ==> Plain(ds[k])
  }

  function ConstText(d: Declared): string {
    if d.isConst then "const" + d.layout.afterConst else ""
  }

  function TypeOf(d: Declared): string {
    var t := d.param.typ;
    if TypeText(t, 0) || |t| <= 9 then t else ("unsigned" + d.layout.afterUnsigned) + t[9..]
  }

  function RenderDefault(d: string): string {
    if d == "" then "" else "=" + d
  }

  function RefText(yes: bool): string {
    if yes then "&" else ""
  }

  /** What stands behind the type, up to the name and the white space behind it. */
  function RenderName(d: Declared): string {
    RefText(d.ref.RefToType?) +
    (d.layout.beforeName + (RefText(d.ref.RefToName?) + (d.param.name + d.layout.afterName)))
  }

  /** A declaration without its default value. */
  function RenderHead(d: Declared): string {
    d.layout.before + (ConstText(d) + (TypeOf(d) + RenderName(d)))
  }

  function RenderParam(d: Declared): string {
    RenderHead(d) + RenderDefault(d.param.defv)
  }

  /** Parameters that are followed by others. */
  function RenderFront(ds: seq<Declared>): string {
    if ds == [] then "" else RenderParam(ds[0]) + ("," + RenderFront(ds[1..]))
  }

  /** A whole list. */
  function Render(ds: seq<Declared>): string
    requires ds != []
  {
    "(" + (RenderFront(ds[..|ds| - 1]) + (RenderParam(ds[|ds| - 1]) + ")"))
  }

  function ParamsOf(ds: seq<Declared>): (r: seq<Param>)
    ensures |r| == |ds|
    ensures forall k :: 0 <= k < |ds| ==> r[k] == ds[k].param
  {
    seq(|ds|, k requires 0 <= k < |ds| => ds[k].param)
  }

  /** The text `t` stands at position `i`. */
  predicate Ahead(c: string, i: nat, t: string) {
    i + |t| <= |c| && c[i..i + |t|] == t
  }

  lemma AheadSplit(c: string, i: nat, t: string, u: string)
    requires Ahead(c, i, t + u)
    ensures Ahead(c, i, t) && Ahead(c, i + |t|, u)
  {
    assert c[i..i + |t|] == (t + u)[..|t|];
    assert c[i + |t|..i + |t + u|] == (t + u)[|t|..];
  }

  lemma AheadFirst(c: string, i: nat, t: string)
    requires Ahead(c, i, t) && t != ""
    ensures i < |c| && c[i] == t[0] && Ahead(c, i + 1, t[1..])
  {
    assert c[i..i + |t|][0] == c[i];
    assert c[i + 1..i + |t|] == t[1..];
  }

  lemma AheadFits(c: string, i: nat, t: string)
    requires Ahead(c, i, t)
    ensures i + |t| <= |c|
  {
  }

  // ------------------------------------------------------------- reading white space

  predicate InType(s: State) {
    s.readState.Type? && s.parens == 0 && s.brackets >= 0
  }

  lemma {:induction false} SkipRun(c: string, i: nat, w: string)
    requires WhiteRun(w) && Ahead(c, i, w) && i + |w| < |c| && !White(c[i + |w|])
    ensures SkipSpace(c, i) == i + |w|
    decreases |w|
  {
    hide IsSpace, White, Ahead;
    SpaceIsWhite(c[i]);
    if w != "" {
      AheadFirst(c, i, w);
      assert White(w[0]);
      SkipRun(c, i + 1, w[1..]);
    }
  }

  /** What white space before position `i` makes of a type. */
  function AfterSpace(s: State, i: nat): State {
    if s.typ == "const" || s.typ == "" then s.(i := i, typ := "")
    else if s.typ == "unsigned" then s.(i := i, typ := s.typ + " ")
    else s.(i := i, readState := Name)
  }

  /** White space at the top level ends the type, unless nothing counts as one yet. */
  lemma ReadSpace(c: string, s: State, w: string)
    requires InType(s) && s.brackets == 0 && w != "" && WhiteRun(w) && Ahead(c, s.i, w)
    requires s.i + |w| < |c| && !White(c[s.i + |w|])
    ensures Scan(c, s) == Scan(c, AfterSpace(s, s.i + |w|))
  {
    hide Scan, IsSpace, White, Ahead, SkipSpace;
    AheadFirst(c, s.i, w);
    assert White(w[0]);
    SkipRun(c, s.i, w);
    SpaceIsWhite(c[s.i]);
    NoSpaceIs(c[s.i]);
    assert Turn(c, s) == TypeTurn(c, s, c[s.i]);
    ScanGoes(c, s, AfterSpace(s, s.i + |w|));
  }

  lemma NoSpaceIs(ch: char)
    requires White(ch)
    ensures ch != '&' && ch != '(' && ch != ')' && ch != '<' && ch != '>' && ch != '=' && ch != ','
  {
  }

  /** White space that may be missing, before the type. */
  lemma ReadLead(c: string, i: nat, list: seq<Param>, w: string)
    requires WhiteRun(w) && Ahead(c, i, w) && i + |w| < |c| && !White(c[i + |w|])
    ensures Scan(c, Fresh(i, list)) == Scan(c, Fresh(i + |w|, list))
  {
    hide Scan, White, Ahead;
    if w != "" {
      ReadSpace(c, Fresh(i, list), w);
    }
  }

  /** White space in the name is dropped. */
  lemma {:induction false} ReadNameSpace(c: string, s: State, w: string)
    requires s.readState.Name? && WhiteRun(w) && Ahead(c, s.i, w)
    ensures s.i + |w| <= |c| && Scan(c, s) == Scan(c, s.(i := s.i + |w|))
    decreases |w|
  {
    hide Scan, SkipSpace, Ahead, White, IsSpace;
    if w == "" {
      AheadFits(c, s.i, w);
    } else {
      AheadFirst(c, s.i, w);
      assert White(w[0]);
      SpaceIsWhite(w[0]);
      NoSpaceIs(w[0]);
      ScanGoes(c, s, s.(i := s.i + 1));
      ReadNameSpace(c, s.(i := s.i + 1), w[1..]);
    }
  }

  // ------------------------------------------------------- reading the rendering

  function Deeper(ch: char, depth: int): int {
    if ch == '<' then depth + 1 else if ch == '>' then depth - 1 else depth
  }

  lemma TypeChar(c: string, s: State)
    requires InType(s) && s.i < |c|
    requires c[s.i] != '&' && c[s.i] != '(' && c[s.i] != ')'
    requires White(c[s.i]) ==> s.brackets > 0
    ensures Scan(c, s) == Scan(c, s.(i := s.i + 1, typ := s.typ + [c[s.i]], brackets := Deeper(c[s.i], s.brackets)))
  {
    hide Scan, SkipSpace, White, IsSpace;
    SpaceIsWhite(c[s.i]);
    if White(c[s.i]) {
      NoSpaceIs(c[s.i]);
    }
    ScanGoes(c, s, s.(i := s.i + 1, typ := s.typ + [c[s.i]], brackets := Deeper(c[s.i], s.brackets)));
  }

  lemma {:induction false} ReadType(c: string, s: State, t: string)
    requires InType(s) && TypeText(t, s.brackets) && Ahead(c, s.i, t)
    ensures s.i + |t| <= |c| && Scan(c, s) == Scan(c, s.(i := s.i + |t|, typ := s.typ + t, brackets := 0))
    decreases |t|
  {
    hide Scan, Turn, Ahead, White;
    if t == "" {
      assert s.typ + t == s.typ;
      assert s.i + |t| <= |c| by { AheadFits(c, s.i, t); }
    } else {
      AheadFirst(c, s.i, t);
      TypeChar(c, s);
      ReadType(c, s.(i := s.i + 1, typ := s.typ + [t[0]], brackets := Deeper(t[0], s.brackets)), t[1..]);
      assert s.typ + [t[0]] + t[1..] == s.typ + t;
    }
  }

  lemma {:induction false} ReadName(c: string, s: State, n: string)
    requires s.readState.Name? && s.parens == 0 && PlainName(n) && Ahead(c, s.i, n)
    ensures s.i + |n| <= |c| && Scan(c, s) == Scan(c, s.(i := s.i + |n|, name := s.name + n))
    decreases |n|
  {
    hide Scan, SkipSpace, Ahead, White, IsSpace;
    if n == "" {
      assert s.name + n == s.name;
      AheadFits(c, s.i, n);
    } else {
      AheadFirst(c, s.i, n);
      assert NameChar(n[0]);
      SpaceIsWhite(n[0]);
      ScanGoes(c, s, s.(i := s.i + 1, name := s.name + [n[0]]));
      ReadName(c, s.(i := s.i + 1, name := s.name + [n[0]]), n[1..]);
      assert s.name + [n[0]] + n[1..] == s.name + n;
    }
  }

  function Paren(ch: char, depth: nat): nat
    requires ch == ')' ==> depth > 0
  {
    if ch == '(' then depth + 1 else if ch == ')' then depth - 1 else depth
  }

  lemma {:induction false} ReadDefault(c: string, s: State, d: string, end: nat)
    requires s.readState.Defv? && DefaultPart(d, s.parens, end) && Ahead(c, s.i, d)
    ensures s.i + |d| <= |c| && Scan(c, s) == Scan(c, s.(i := s.i + |d|, defv := s.defv + d, parens := end))
    decreases |d|
  {
    hide Scan, SkipSpace, Ahead, TypeTurn, NameTurn;
    if d == "" {
      assert s.defv + d == s.defv;
      AheadFits(c, s.i, d);
    } else {
      AheadFirst(c, s.i, d);
      var next := s.(i := s.i + 1, defv := s.defv + [d[0]], parens := Paren(d[0], s.parens));
      ScanGoes(c, s, next);
      ReadDefault(c, next, d[1..], end);
      assert s.defv + [d[0]] + d[1..] == s.defv + d;
    }
  }

  /** The scan before a parameter. */
  function Fresh(i: nat, list: seq<Param>): State {
    State(i, Type, 0, 0, "", "", "", list)
  }

  /** The scan behind the name of a parameter. */
  function Named(i: nat, p: Param, list: seq<Param>): State {
    State(i, Name, 0, 0, p.typ, p.name, "", list)
  }

  /** The scan behind a parameter. */
  function Complete(i: nat, p: Param, list: seq<Param>): State {
    State(i, if p.defv == "" then Name else Defv, 0, 0, p.typ, p.name, p.defv, list)
  }

  lemma ReadWord(c: string, i: nat, list: seq<Param>, word: string)
    requires TypeText(word, 0) && Ahead(c, i, word)
    ensures i + |word| <= |c| && Scan(c, Fresh(i, list)) == Scan(c, Fresh(i, list).(i := i + |word|, typ := word))
  {
    hide Scan, Turn, Ahead, TypeText;
    ReadType(c, Fresh(i, list), word);
    assert "" + word == word;
  }

  /** One of the two words after which the type goes on. */
  lemma ReadWordAndSpace(c: string, i: nat, list: seq<Param>, word: string, w: string)
    requires TypeText(word, 0) && w != "" && WhiteRun(w) && Ahead(c, i, word + w)
    requires i + |word + w| < |c| && !White(c[i + |word + w|])
    ensures Scan(c, Fresh(i, list)) ==
            Scan(c, AfterSpace(Fresh(i + |word|, list).(typ := word), i + |word + w|))
  {
    hide Scan, Turn, Ahead, TypeText, White, AfterSpace, WhiteRun;
    AheadSplit(c, i, word, w);
    ReadWord(c, i, list, word);
    ReadSpace(c, Fresh(i + |word|, list).(typ := word), w);
  }

  lemma FirstWordsAreText()
    ensures TypeText("const", 0) && TypeText("unsigned", 0)
  {
  }

  lemma ReadConst(c: string, i: nat, list: seq<Param>, w: string)
    requires w != "" && WhiteRun(w) && Ahead(c, i, "const" + w)
    requires i + |"const" + w| < |c| && !White(c[i + |"const" + w|])
    ensures Scan(c, Fresh(i, list)) == Scan(c, Fresh(i + |"const" + w|, list))
  {
    hide Scan, Turn, TypeText, Ahead, White, WhiteRun;
    FirstWordsAreText();
    ReadWordAndSpace(c, i, list, "const", w);
  }

  /** The ampersand of a reference is dropped. */
  lemma ReadRef(c: string, s: State)
    requires (InType(s) || (s.readState.Name? && s.parens == 0)) && s.i < |c| && c[s.i] == '&'
    ensures Scan(c, s) == Scan(c, s.(i := s.i + 1))
  {
    hide Scan, SkipSpace;
    ScanGoes(c, s, s.(i := s.i + 1));
  }

  lemma ReadRefText(c: string, s: State, yes: bool)
    requires (InType(s) || (s.readState.Name? && s.parens == 0)) && Ahead(c, s.i, RefText(yes))
    ensures s.i + |RefText(yes)| <= |c| && Scan(c, s) == Scan(c, s.(i := s.i + |RefText(yes)|))
  {
    hide Scan, Ahead;
    AheadFits(c, s.i, RefText(yes));
    if yes {
      AheadFirst(c, s.i, RefText(yes));
      ReadRef(c, s);
    }
  }

  lemma PlainTypeSplits(t: string)
    requires PlainType(t) && !TypeText(t, 0)
    ensures |t| > 9 && t == ("unsigned" + " ") + t[9..] && TypeText(t[9..], 0)
  {
    assert t == t[..9] + t[9..];
    assert "unsigned" + " " == "unsigned ";
  }

  lemma TypeStarts(t: string)
    requires TypeText(t, 0) && t != ""
    ensures !White(t[0])
  {
  }

  lemma UnsignedGoesOn(c: string, i: nat, list: seq<Param>, w: string)
    requires w != "" && WhiteRun(w) && Ahead(c, i, "unsigned" + w)
    requires i + |"unsigned" + w| < |c| && !White(c[i + |"unsigned" + w|])
    ensures Scan(c, Fresh(i, list)) == Scan(c, Fresh(i + |"unsigned" + w|, list).(typ := "unsigned" + " "))
  {
    hide Scan, TypeText, Ahead, White, WhiteRun;
    FirstWordsAreText();
    ReadWordAndSpace(c, i, list, "unsigned", w);
  }

  lemma ReadUnsigned(c: string, i: nat, list: seq<Param>, w: string, word: string)
    requires TypeText(word, 0) && word != "" && w != "" && WhiteRun(w) && Ahead(c, i, ("unsigned" + w) + word)
    ensures var j := i + |("unsigned" + w) + word|;
            j <= |c| && Scan(c, Fresh(i, list)) == Scan(c, Fresh(j, list).(typ := ("unsigned" + " ") + word))
  {
    hide Scan, Ahead, TypeText, White, WhiteRun;
    var front := "unsigned" + w;
    AheadSplit(c, i, front, word);
    AheadFirst(c, i + |front|, word);
    TypeStarts(word);
    UnsignedGoesOn(c, i, list, w);
    ReadType(c, Fresh(i + |front|, list).(typ := "unsigned" + " "), word);
  }

  /** The whole type, of one word or behind `unsigned`. */
  lemma ReadPlainType(c: string, i: nat, list: seq<Param>, d: Declared)
    requires Plain(d) && Ahead(c, i, TypeOf(d))
    ensures i + |TypeOf(d)| <= |c|
    ensures Scan(c, Fresh(i, list)) == Scan(c, Fresh(i + |TypeOf(d)|, list).(typ := d.param.typ))
  {
    hide Scan, Turn, Ahead, White, WhiteRun, PlainType, TypeText, PlainName, DefaultPart;
    var t := d.param.typ;
    if TypeText(t, 0) {
      ReadWord(c, i, list, t);
    } else {
      PlainTypeSplits(t);
      ReadUnsigned(c, i, list, d.layout.afterUnsigned, t[9..]);
    }
  }

  /** The type neither starts with white space, nor is a word after which it goes on. */
  lemma TypeIsPlain(d: Declared)
    requires Plain(d)
    ensures TypeOf(d) != "" && !White(TypeOf(d)[0])
    ensures d.param.typ != "" && d.param.typ != "const" && d.param.typ != "unsigned"
  {
    hide PlainLayout, PlainName, DefaultPart;
    var t := d.param.typ;
    if TypeText(t, 0) {
      TypeStarts(t);
    }
  }

  lemma NameStarts(d: Declared)
    requires Plain(d)
    ensures d.param.name != "" && !White(d.param.name[0])
  {
    hide PlainType, DefaultPart, White, PlainLayout;
    assert NameChar(d.param.name[0]);
  }

  /** The name and the white space behind it. */
  lemma ReadNameAndSpace(c: string, i: nat, list: seq<Param>, p: Param, w: string)
    requires PlainName(p.name) && WhiteRun(w) && Ahead(c, i, p.name + w)
    ensures i + |p.name + w| <= |c|
    ensures Scan(c, Named(i, p, list).(name := "")) == Scan(c, Named(i + |p.name + w|, p, list))
  {
    hide Scan, Ahead, PlainName, WhiteRun;
    AheadSplit(c, i, p.name, w);
    ReadName(c, Named(i, p, list).(name := ""), p.name);
    assert "" + p.name == p.name;
    ReadNameSpace(c, Named(i + |p.name|, p, list), w);
  }

  /** What follows the white space behind the type. */
  lemma ReadRefAndName(c: string, i: nat, list: seq<Param>, d: Declared)
    requires Plain(d) && Ahead(c, i, RefText(d.ref.RefToName?) + (d.param.name + d.layout.afterName))
    ensures var j := i + |RefText(d.ref.RefToName?) + (d.param.name + d.layout.afterName)|;
            j <= |c| && Scan(c, Named(i, d.param, list).(name := "")) == Scan(c, Named(j, d.param, list))
  {
    hide Scan, Ahead, PlainName, WhiteRun, PlainType, DefaultPart, RefText;
    var ref, tail := RefText(d.ref.RefToName?), d.param.name + d.layout.afterName;
    AheadSplit(c, i, ref, tail);
    ReadRefText(c, Named(i, d.param, list).(name := ""), d.ref.RefToName?);
    ReadNameAndSpace(c, i + |ref|, list, d.param, d.layout.afterName);
  }

  /** The character behind the white space is not white. */
  lemma NameFollows(c: string, i: nat, d: Declared)
    requires Plain(d) && Ahead(c, i, RefText(d.ref.RefToName?) + (d.param.name + d.layout.afterName))
    ensures i < |c| && !White(c[i])
  {
    hide Ahead, Plain;
    NameStarts(d);
    var text := RefText(d.ref.RefToName?) + (d.param.name + d.layout.afterName);
    AheadFirst(c, i, text);
    assert text[0] == if d.ref.RefToName? then '&' else d.param.name[0];
  }

  /** What follows the type and a possible ampersand. */
  lemma ReadTail(c: string, i: nat, list: seq<Param>, d: Declared)
    requires Plain(d)
    requires Ahead(c, i, d.layout.beforeName + (RefText(d.ref.RefToName?) + (d.param.name + d.layout.afterName)))
    ensures var j := i + |d.layout.beforeName + (RefText(d.ref.RefToName?) + (d.param.name + d.layout.afterName))|;
            j <= |c| && Scan(c, Fresh(i, list).(typ := d.param.typ)) == Scan(c, Named(j, d.param, list))
  {
    hide Scan, Ahead, PlainParam, WhiteRun, White, RefText;
    var w, tail := d.layout.beforeName, RefText(d.ref.RefToName?) + (d.param.name + d.layout.afterName);
    TypeIsPlain(d);
    AheadSplit(c, i, w, tail);
    NameFollows(c, i + |w|, d);
    ReadSpace(c, Fresh(i, list).(typ := d.param.typ), w);
    ReadRefAndName(c, i + |w|, list, d);
  }

  lemma ReadRenderedName(c: string, i: nat, list: seq<Param>, d: Declared)
    requires Plain(d) && Ahead(c, i, RenderName(d))
    ensures i + |RenderName(d)| <= |c|
    ensures Scan(c, Fresh(i, list).(typ := d.param.typ)) == Scan(c, Named(i + |RenderName(d)|, d.param, list))
  {
    hide Scan, Ahead, Plain, RefText;
    var ref := RefText(d.ref.RefToType?);
    var tail := d.layout.beforeName + (RefText(d.ref.RefToName?) + (d.param.name + d.layout.afterName));
    AheadSplit(c, i, ref, tail);
    ReadRefText(c, Fresh(i, list).(typ := d.param.typ), d.ref.RefToType?);
    ReadTail(c, i + |ref|, list, d);
  }

  /** The type and what follows it. */
  lemma ReadTypeAndName(c: string, i: nat, list: seq<Param>, d: Declared)
    requires Plain(d) && Ahead(c, i, TypeOf(d) + RenderName(d))
    ensures i + |TypeOf(d) + RenderName(d)| <= |c| && i < |c| && !White(c[i])
    ensures Scan(c, Fresh(i, list)) == Scan(c, Named(i + |TypeOf(d) + RenderName(d)|, d.param, list))
  {
    hide Scan, Ahead, Plain, TypeOf, RenderName, White;
    TypeIsPlain(d);
    AheadSplit(c, i, TypeOf(d), RenderName(d));
    AheadFirst(c, i, TypeOf(d));
    ReadPlainType(c, i, list, d);
    ReadRenderedName(c, i + |TypeOf(d)|, list, d);
  }

  /** A constant one, too. */
  lemma ReadConstAndName(c: string, i: nat, list: seq<Param>, d: Declared)
    requires Plain(d) && Ahead(c, i, ConstText(d) + (TypeOf(d) + RenderName(d)))
    ensures var j := i + |ConstText(d) + (TypeOf(d) + RenderName(d))|;
            && j <= |c| && i < |c| && !White(c[i])
            && Scan(c, Fresh(i, list)) == Scan(c, Named(j, d.param, list))
  {
    hide Scan, Ahead, TypeOf, RenderName, White, WhiteRun, PlainParam;
    AheadSplit(c, i, ConstText(d), TypeOf(d) + RenderName(d));
    ReadTypeAndName(c, i + |ConstText(d)|, list, d);
    if d.isConst {
      AheadFirst(c, i, ConstText(d));
      ReadConst(c, i, list, d.layout.afterConst);
      assert !White('c') by { NotWhite(); }
    }
  }

  lemma NotWhite()
    ensures !White('c') && !White(')')
  {
  }

  /** A declaration up to its name. */
  lemma ReadHead(c: string, i: nat, list: seq<Param>, d: Declared)
    requires Plain(d) && Ahead(c, i, RenderHead(d))
    ensures var j := i + |RenderHead(d)|;
            j <= |c| && Scan(c, Fresh(i, list)) == Scan(c, Named(j, d.param, list))
  {
    hide Scan, Ahead, ConstText, TypeOf, RenderName, White, WhiteRun, PlainParam;
    var w, tail := d.layout.before, ConstText(d) + (TypeOf(d) + RenderName(d));
    AheadSplit(c, i, w, tail);
    ReadConstAndName(c, i + |w|, list, d);
    ReadLead(c, i, list, w);
  }

  /** The equals sign behind a name starts the default value. */
  lemma ReadEquals(c: string, s: State)
    requires s.readState.Name? && s.parens == 0 && s.i < |c| && c[s.i] == '='
    ensures Scan(c, s) == Scan(c, s.(i := s.i + 1, readState := Defv))
  {
    hide Scan, SkipSpace, TypeTurn, DefvTurn;
    ScanGoes(c, s, s.(i := s.i + 1, readState := Defv));
  }

  /** The equals sign, and part of a default value. */
  lemma ReadEqualsAndDefault(c: string, i: nat, list: seq<Param>, p: Param, d: string, end: nat)
    requires DefaultPart(d, 0, end) && Ahead(c, i, "=" + d)
    ensures i + |"=" + d| <= |c|
    ensures Scan(c, Named(i, p, list)) ==
            Scan(c, State(i + |"=" + d|, Defv, end, 0, p.typ, p.name, d, list))
  {
    hide Scan, Ahead, DefaultPart;
    AheadSplit(c, i, "=", d);
    AheadFirst(c, i, "=");
    ReadEquals(c, Named(i, p, list));
    ReadDefault(c, Named(i + 1, p, list).(readState := Defv), d, end);
    assert "" + d == d;
  }

  lemma ReadParam(c: string, i: nat, list: seq<Param>, d: Declared)
    requires Plain(d) && Ahead(c, i, RenderParam(d))
    ensures var j := i + |RenderParam(d)|;
            j <= |c| && Scan(c, Fresh(i, list)) == Scan(c, Complete(j, d.param, list))
  {
    hide Scan, Ahead, RenderHead, PlainType, PlainName, DefaultPart, PlainLayout;
    var p := d.param;
    AheadSplit(c, i, RenderHead(d), RenderDefault(p.defv));
    ReadHead(c, i, list, d);
    if p.defv != "" {
      ReadEqualsAndDefault(c, i + |RenderHead(d)|, list, p, p.defv, 0);
    }
  }

  // -------------------------------------------------------------------- whole lists

  /** The closing parenthesis ends the list with the parameter that was read. */
  lemma ReadEnd(c: string, i: nat, list: seq<Param>, p: Param)
    requires i < |c| && c[i] == ')'
    ensures Scan(c, Complete(i, p, list)) == Params(list + [p])
  {
    hide SkipSpace, TypeTurn, NameTurn, DefvTurn;
  }

  /** A comma leads on to the next parameter; after a bare name it is met twice. */
  lemma ReadComma(c: string, i: nat, list: seq<Param>, p: Param)
    requires i < |c| && c[i] == ','
    ensures Scan(c, Complete(i, p, list)) == Scan(c, Fresh(i + 1, list + [p]))
  {
    hide Scan, SkipSpace, TypeTurn;
    var s := Complete(i, p, list);
    if p.defv == "" {
      ScanGoes(c, s, s.(readState := Defv));
    }
    ScanGoes(c, s.(readState := Defv), Fresh(i + 1, list + [p]));
  }

  lemma ReadParamAndComma(c: string, i: nat, list: seq<Param>, d: Declared, rest: string)
    requires Plain(d) && Ahead(c, i, RenderParam(d) + ("," + rest))
    ensures var j := i + |RenderParam(d)| + 1;
            Ahead(c, j, rest) && j <= |c| && Scan(c, Fresh(i, list)) == Scan(c, Fresh(j, list + [d.param]))
  {
    hide Scan, Turn, Ahead, Plain, RenderParam, Complete;
    var j := i + |RenderParam(d)|;
    AheadSplit(c, i, RenderParam(d), "," + rest);
    AheadSplit(c, j, ",", rest);
    AheadFirst(c, j, ",");
    AheadFits(c, j + 1, rest);
    ReadParam(c, i, list, d);
    ReadComma(c, j, list, d.param);
  }

  /** The parameters before the last one. */
  lemma {:induction false} ReadFront(c: string, i: nat, list: seq<Param>, ds: seq<Declared>)
    requires AllPlain(ds) && Ahead(c, i, RenderFront(ds))
    ensures var j := i + |RenderFront(ds)|;
            j <= |c| && Scan(c, Fresh(i, list)) == Scan(c, Fresh(j, list + ParamsOf(ds)))
    decreases |ds|
  {
    hide Scan, Turn, Ahead, Plain, RenderParam, Fresh;
    if ds == [] {
      AheadFits(c, i, RenderFront(ds));
      assert list + ParamsOf(ds) == list;
    } else {
      ReadParamAndComma(c, i, list, ds[0], RenderFront(ds[1..]));
      ReadFront(c, i + |RenderParam(ds[0])| + 1, list + [ds[0].param], ds[1..]);
      assert list + ParamsOf(ds) == (list + [ds[0].param]) + ParamsOf(ds[1..]);
    }
  }

  lemma AheadOfMiddle(before: string, t: string, after: string)
    ensures Ahead(before + t + after, |before|, t)
  {
  }

  /** What stands behind the opening parenthesis and some parameters. */
  lemma ReadOpening(before: string, ds: seq<Declared>, text: string, after: string) returns (c: string, i: nat)
    requires AllPlain(ds)
    ensures c == before + ("(" + (RenderFront(ds) + text)) + after
    ensures i == |before| + 1 + |RenderFront(ds)| <= |c| && i + |text| + |after| == |c| && Ahead(c, i, text)
    ensures ScanFrom(c, |before|) == Scan(c, Fresh(i, ParamsOf(ds)))
  {
    hide Scan, Turn, Ahead, AllPlain, RenderFront;
    var front := RenderFront(ds);
    c := before + ("(" + (front + text)) + after;
    i := |before| + 1 + |front|;
    AheadOfMiddle(before, "(" + (front + text), after);
    AheadSplit(c, |before|, "(", front + text);
    AheadFirst(c, |before|, "(");
    AheadSplit(c, |before| + 1, front, text);
    ReadFront(c, |before| + 1, [], ds);
    assert [] + ParamsOf(ds) == ParamsOf(ds);
  }

  /** The scanner inverts the rendering, wherever the list stands in the file and however its
      white space is laid out: constness and references are dropped, everything else comes
      back. */
  lemma ScanOfRender(before: string, ds: seq<Declared>, after: string)
    requires ds != [] && AllPlain(ds)
    ensures ScanFrom(before + Render(ds) + after, |before|) == Params(ParamsOf(ds))
  {
    hide Scan, Turn, Plain, RenderParam, RenderFront, Ahead;
    var n := |ds| - 1;
    var last := ds[n];
    var c, i := ReadOpening(before, ds[..n], RenderParam(last) + ")", after);
    AheadSplit(c, i, RenderParam(last), ")");
    AheadFirst(c, i + |RenderParam(last)|, ")");
    ReadParam(c, i, ParamsOf(ds[..n]), last);
    ReadEnd(c, i + |RenderParam(last)|, ParamsOf(ds[..n]), last.param);
    assert ParamsOf(ds[..n]) + [last.param] == ParamsOf(ds);
  }

  // ------------------------------------------------------------ lists that are refused

  /** A closing parenthesis where a parameter should start is refused, after a comma and in
      an empty list. */
  lemma MissingParamIsRefused(before: string, ds: seq<Declared>, w: string, after: string)
    requires AllPlain(ds) && WhiteRun(w)
    ensures ScanFrom(before + ("(" + (RenderFront(ds) + (w + ")"))) + after, |before|) == ValueError
  {
    hide Scan, Plain, RenderFront, Ahead, WhiteRun, White, SkipSpace;
    var c, i := ReadOpening(before, ds, w + ")", after);
    AheadSplit(c, i, w, ")");
    AheadFirst(c, i + |w|, ")");
    NotWhite();
    ReadLead(c, i, ParamsOf(ds), w);
    ScanHalts(c, Fresh(i + |w|, ParamsOf(ds)));
  }

  /** The list must not be empty. */
  lemma EmptyListIsRefused(before: string, after: string)
    ensures ScanFrom(before + "()" + after, |before|) == ValueError
  {
    MissingParamIsRefused(before, [], "", after);
    assert "(" + (RenderFront([]) + ("" + ")")) == "()";
  }

  /** A comma inside the parentheses of a default value is refused. */
  lemma CommaInCallIsRefused(
      before: string, ds: seq<Declared>, d: Declared, part: string, depth: nat, after: string)
    requires AllPlain(ds) && Plain(d) && DefaultPart(part, 0, depth) && 0 < depth
    ensures ScanFrom(before + ("(" + (RenderFront(ds) + (RenderHead(d) + (("=" + part) + ",")))) + after, |before|)
            == ValueError
  {
    hide Scan, Plain, RenderFront, RenderHead, Ahead, DefaultPart, SkipSpace;
    var c, i := ReadOpening(before, ds, RenderHead(d) + (("=" + part) + ","), after);
    var list, j := ParamsOf(ds), i + |RenderHead(d)|;
    AheadSplit(c, i, RenderHead(d), ("=" + part) + ",");
    AheadSplit(c, j, "=" + part, ",");
    AheadFirst(c, j + |"=" + part|, ",");
    ReadHead(c, i, list, d);
    ReadEqualsAndDefault(c, j, list, d.param, part, depth);
    ScanHalts(c, State(j + |"=" + part|, Defv, depth, 0, d.param.typ, d.param.name, part, list));
  }

  /** So is a name with a parenthesis that is still open at the comma, or at the equals sign. */
  lemma ParenInNameIsRefused(before: string, ds: seq<Declared>, d: Declared, stop: char, after: string)
    requires AllPlain(ds) && Plain(d) && (stop == ',' || stop == '=')
    ensures ScanFrom(before + ("(" + (RenderFront(ds) + (RenderHead(d) + ("(" + [stop])))) + after, |before|)
            == ValueError
  {
    hide Scan, Plain, RenderFront, RenderHead, Ahead, SkipSpace;
    var c, i := ReadOpening(before, ds, RenderHead(d) + ("(" + [stop]), after);
    var list, j := ParamsOf(ds), i + |RenderHead(d)|;
    AheadSplit(c, i, RenderHead(d), "(" + [stop]);
    AheadSplit(c, j, "(", [stop]);
    AheadFirst(c, j, "(");
    AheadFirst(c, j + 1, [stop]);
    ReadHead(c, i, list, d);
    var s := Named(j + 1, d.param, list).(parens := 1, name := d.param.name + "(");
    ScanGoes(c, Named(j, d.param, list), s);
    ScanHalts(c, s);
  }

  /** A file that ends before the list does runs out of characters. */
  lemma UnfinishedListRunsOut(before: string, ds: seq<Declared>, d: Declared)
    requires AllPlain(ds) && Plain(d)
    ensures ScanFrom(before + ("(" + RenderFront(ds)), |before|) == IndexError
    ensures ScanFrom(before + ("(" + (RenderFront(ds) + RenderParam(d))), |before|) == IndexError
  {
    hide Scan, Plain, RenderFront, RenderParam, Ahead, SkipSpace;
    var c, i := ReadOpening(before, ds, "", "");
    assert c == before + ("(" + RenderFront(ds));
    ScanHalts(c, Fresh(i, ParamsOf(ds)));
    c, i := ReadOpening(before, ds, RenderParam(d), "");
    assert c == before + ("(" + (RenderFront(ds) + RenderParam(d)));
    ReadParam(c, i, ParamsOf(ds), d);
    ScanHalts(c, Complete(i + |RenderParam(d)|, d.param, ParamsOf(ds)));
  }
}
