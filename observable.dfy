/** The `Observable` recipe of tuna/base/observable.py and its canonical label:
    `T<timing><tref>M<mode>J<join_points>_[dot_][W<time_window>_][log_]<raw>`. */
module Observables {
  import opened Wrappers
  import opened Text

  /** When a cell-cycle value is dated: 't' time-lapse, 'b' birth, 'd' division,
      'm' midpoint, 'g' generation; any other lower-case letter is accepted by
      the decoder and kept as is. */
  datatype Timing = T | B | D | M | G | OtherTiming(letter: char)

  /** How data is retrieved. `CellCycle` is the mode a FunctionalObservable
      reports when none of its children is dynamic; any other `[a-z-]+` word is
      accepted by the decoder and kept as is. */
  datatype Mode =
    | Dynamics | Birth | Division | NetIncreaseAdditive | NetIncreaseMultiplicative
    | Average | Rate | CellCycle | OtherMode(word: string)

  datatype Scale = Linear | Log

  /** The reference time: absent, the colony root, or a number. */
  datatype Tref = NoRef | Root | Number(value: real)

  datatype Observable = Observable(
    name: string,
    raw: string,
    differentiate: bool,
    scale: Scale,
    localFit: bool,
    timeWindow: real,
    joinPoints: nat,
    mode: Mode,
    timing: Timing,
    tref: Tref)

  /** Errors of `load_from_string`: ObservableStringError when the code does
      not match the pattern, ValueError when `float()` rejects a number. */
  datatype DecodeError = NotValidCodestring | BadNumber

  /** `Observable(name, raw=raw)` with every other keyword at its default. */
  function NewObservable(name: string, raw: string): Observable {
    Observable(name, raw, false, Linear, false, 0.0, 3, Dynamics, T, NoRef)
  }

  function TimingChar(t: Timing): char {
    match t
    case T => 't'
    case B => 'b'
    case D => 'd'
    case M => 'm'
    case G => 'g'
    case OtherTiming(c) => c
  }

  function TimingOf(c: char): Timing {
    if c == 't' then T
    else if c == 'b' then B
    else if c == 'd' then D
    else if c == 'm' then M
    else if c == 'g' then G
    else OtherTiming(c)
  }

  function ModeName(m: Mode): string {
    match m
    case Dynamics => "dynamics"
    case Birth => "birth"
    case Division => "division"
    case NetIncreaseAdditive => "net-increase-additive"
    case NetIncreaseMultiplicative => "net-increase-multiplicative"
    case Average => "average"
    case Rate => "rate"
    case CellCycle => "cell-cycle"
    case OtherMode(w) => w
  }

  function ModeOf(s: string): Mode {
    if s == "dynamics" then Dynamics
    else if s == "birth" then Birth
    else if s == "division" then Division
    else if s == "net-increase-additive" then NetIncreaseAdditive
    else if s == "net-increase-multiplicative" then NetIncreaseMultiplicative
    else if s == "average" then Average
    else if s == "rate" then Rate
    else if s == "cell-cycle" then CellCycle
    else OtherMode(s)
  }

  // ---------------------------------------------------------------------------
  // Encoding

  function TrefString(t: Tref): string {
    match t
    case NoRef => ""
    case Root => "root"
    case Number(v) => Fixed2(v)
  }

  /** The part before the first '_': `T<timing><tref>M<mode>J<join_points>`. */
  function Head(o: Observable): string {
    "T" + [TimingChar(o.timing)] + TrefString(o.tref)
    + "M" + ModeName(o.mode) + "J" + NatToString(o.joinPoints)
  }

  /** `Observable.label`: the head, '_', then the flag items in a fixed
      order, each followed by '_', then the raw name. */
  function Label(o: Observable): (r: string)
    ensures |r| > |o.raw| + 1 && r[0] == 'T'
  {
    Head(o) + "_"
    + ((if o.differentiate then "dot_" else "")
       + ((if o.localFit then "W" + Fixed2(o.timeWindow) + "_" else "")
          + ((if o.scale == Log then "log_" else "")
             + o.raw)))
  }

  /** The flag items of a label, in label order. */
  function FlagPieces(o: Observable): seq<string> {
    (if o.differentiate then ["dot"] else [])
    + ((if o.localFit then ["W" + Fixed2(o.timeWindow)] else [])
       + (if o.scale == Log then ["log"] else []))
  }

  /** The '_'-separated pieces of a label, in order. */
  function Pieces(o: Observable): seq<string> {
    [Head(o)] + FlagPieces(o) + [o.raw]
  }

  // ---------------------------------------------------------------------------
  // The pattern T([a-z])([a-z]*\d*[\.,]*\d*)M([a-z\-]+)J(\d+), matched at the start

  datatype CodeMatch = CodeMatch(timing: char, stref: string, mode: string, join: string)

  /** `[a-z]*\d*[\.,]*\d*` matches all of `t`. */
  predicate StrefShape(t: string) {
    var a := SpanEnd(t, 0, Lower);
    var b := SpanEnd(t, a, Digit);
    var c := SpanEnd(t, b, Separator);
    SpanEnd(t, c, Digit) == |t|
  }

  /** Groups of `re.match(_re_codestring, s)`. Neither group 2 nor group 3 can
      hold 'M' or 'J', so the literals are the first 'M' after the timing
      letter and the first 'J' after it; `\d+` is greedy. */
  function MatchCode(s: string): (r: Option<CodeMatch>)
    ensures r.Some? ==> IsLower(r.value.timing) && AllDigits(r.value.join) && |r.value.join| > 0
  {
    if |s| < 2 || s[0] != 'T' || !IsLower(s[1]) then None
    else
      match FindFrom(s, 'M', 2)
      case None => None
      case Some(m) => if !StrefShape(s[2..m]) then None else MatchMode(s, m)
  }

  /** The groups after the 'M' at `m`. */
  function MatchMode(s: string, m: nat): (r: Option<CodeMatch>)
    requires 2 <= m < |s| && IsLower(s[1])
    ensures r.Some? ==> IsLower(r.value.timing) && AllDigits(r.value.join) && |r.value.join| > 0
  {
    match FindFrom(s, 'J', m + 1)
    case None => None
    case Some(j) =>
      if j == m + 1 || SpanEnd(s, m + 1, ModeChar) != j then None
      else
        var e := SpanEnd(s, j + 1, Digit);
        if e == j + 1 then None
        else Some(CodeMatch(s[1], s[2..m], s[m + 1..j], s[j + 1..e]))
  }

  // ---------------------------------------------------------------------------
  // Decoding

  /** The tref group: empty gives no reference, 'root' the root, anything else
      goes through `float()` after ',' is replaced by '.'. */
  function ParseTref(stref: string): (r: Result<Tref, DecodeError>)
    ensures r.Err? ==> r.error == BadNumber
  {
    if stref == "" then Ok(NoRef)
    else if stref == "root" then Ok(Root)
    else if SpanEnd(stref, 0, Lower) > 0 then Err(BadNumber)
    else
      match ParseDecimal(stref)
      case None => Err(BadNumber)
      case Some(v) => Ok(Number(v))
  }

  /** The attributes that the '_'-separated flag items set. */
  datatype Flags = Flags(scale: Scale, differentiate: bool, localFit: bool, timeWindow: real)

  /** The values `load_from_string` resets them to before reading the items. */
  const DefaultFlags := Flags(Linear, false, false, 0.0)

  /** End of the `\d*[\.,]*\d*` group that follows a 'W' at `w`. */
  function WindowEnd(item: string, w: nat): nat
    requires w < |item|
  {
    var a := SpanEnd(item, w + 1, Digit);
    var b := SpanEnd(item, a, Separator);
    SpanEnd(item, b, Digit)
  }

  /** One pass of the loop over `items[:-1]`: `re.search('W(\d*[.,]*\d*)')`
      sets the window when its group is not empty; 'log' and 'dot' set their
      flags. */
  function ApplyItem(item: string, f: Flags): (r: Result<Flags, DecodeError>)
    ensures r.Err? ==> r.error == BadNumber
  {
    var windowed :=
      match FindFrom(item, 'W', 0)
      case None => Ok(f)
      case Some(w) =>
        var e := WindowEnd(item, w);
        if e == w + 1 then Ok(f)
        else
          match ParseDecimal(item[w + 1..e])
          case None => Err(BadNumber)
          case Some(tw) => Ok(f.(timeWindow := tw, localFit := true));
    match windowed
    case Err(e) => Err(e)
    case Ok(f1) =>
      var f2 := if item == "log" then f1.(scale := Log) else f1;
      Ok(if item == "dot" then f2.(differentiate := true) else f2)
  }

  function ApplyItems(items: seq<string>, f: Flags): (r: Result<Flags, DecodeError>)
    ensures r.Err? ==> r.error == BadNumber
  {
    if items == [] then Ok(f)
    else
      match ApplyItem(items[0], f)
      case Err(e) => Err(e)
      case Ok(f1) => ApplyItems(items[1..], f1)
  }

  /** What `load_from_string` leaves in an Observable called `name`. */
  function Decode(name: string, code: string): (r: Result<Observable, DecodeError>)
    ensures MatchCode(code).None? <==> r == Err(NotValidCodestring)
    ensures r.Ok? ==> r.value.name == name && r.value.raw == Split(code, '_')[|Split(code, '_')| - 1]
  {
    match MatchCode(code)
    case None => Err(NotValidCodestring)
    case Some(m) => DecodeMatched(name, Split(code, '_'), m)
  }

  /** The attributes read once the pattern matched: the reference time,
      then the flag items, then the groups. */
  function DecodeMatched(name: string, items: seq<string>, m: CodeMatch): (r: Result<Observable, DecodeError>)
    requires |items| > 0 && AllDigits(m.join)
    ensures r.Err? ==> r.error == BadNumber
    ensures r.Ok? ==> r.value.name == name && r.value.raw == items[|items| - 1]
  {
    match ParseTref(m.stref)
    case Err(e) => Err(e)
    case Ok(tref) =>
      match ApplyItems(items[..|items| - 1], DefaultFlags)
      case Err(e) => Err(e)
      case Ok(f) =>
        Ok(Observable(name, items[|items| - 1], f.differentiate, f.scale, f.localFit,
                      f.timeWindow, DigitsValue(m.join), ModeOf(m.mode), TimingOf(m.timing), tref))
  }

  /** `Observable.load_from_string` on an observable `self`: defaults first,
      raw from the last piece, the pattern, then a loop over the other
      pieces. */
  method LoadFromString(self: Observable, codestring: string) returns (r: Result<Observable, DecodeError>)
    ensures r == Decode(self.name, codestring)
  {
    var flags := DefaultFlags;
    var items := Split(codestring, '_');
    var raw := items[|items| - 1];
    var m := MatchCode(codestring);
    if m.None? {
      return Err(NotValidCodestring);
    }
    var tref := ParseTref(m.value.stref);
    if tref.Err? {
      assert Decode(self.name, codestring) == Err(tref.error);
      return Err(tref.error);
    }
    var n := |items| - 1;
    assert Decode(self.name, codestring) == DecodeMatched(self.name, items, m.value);
    var i := 0;
    while i < n
      invariant 0 <= i <= n
      invariant ApplyItems(items[..n], DefaultFlags) == ApplyItems(items[i..n], flags)
    {
      assert items[i..n] == [items[i]] + items[i + 1..n];
      var next := ApplyItem(items[i], flags);
      if next.Err? {
        assert ApplyItems(items[..n], DefaultFlags) == Err(next.error);
        MatchedItemsFail(self.name, items, m.value, next.error);
        return Err(next.error);
      }
      flags := next.value;
      i := i + 1;
    }
    assert items[n..n] == [];
    assert ApplyItems(items[..n], DefaultFlags) == Ok(flags);
    assert raw == items[n];
    r := Ok(Observable(self.name, raw, flags.differentiate, flags.scale, flags.localFit,
                       flags.timeWindow, DigitsValue(m.value.join), ModeOf(m.value.mode),
                       TimingOf(m.value.timing), tref.value));
    MatchedItemsApply(self.name, items, m.value, flags);
  }

  lemma MatchedItemsFail(name: string, items: seq<string>, m: CodeMatch, e: DecodeError)
    requires |items| > 0 && AllDigits(m.join) && ParseTref(m.stref).Ok?
    requires ApplyItems(items[..|items| - 1], DefaultFlags) == Err(e)
    ensures DecodeMatched(name, items, m) == Err(e)
  {
  }

  lemma MatchedItemsApply(name: string, items: seq<string>, m: CodeMatch, f: Flags)
    requires |items| > 0 && AllDigits(m.join) && ParseTref(m.stref).Ok?
    requires ApplyItems(items[..|items| - 1], DefaultFlags) == Ok(f)
    ensures DecodeMatched(name, items, m)
            == Ok(Observable(name, items[|items| - 1], f.differentiate, f.scale, f.localFit, f.timeWindow,
                             DigitsValue(m.join), ModeOf(m.mode), TimingOf(m.timing), ParseTref(m.stref).value))
  {
  }

  /** `Observable.as_timelapse`. */
  function AsTimelapse(o: Observable): (r: Observable)
    ensures r.mode == Dynamics && r.timing == T
    ensures r.raw == o.raw && r.differentiate == o.differentiate && r.scale == o.scale
            && r.localFit == o.localFit && r.timeWindow == o.timeWindow
            && r.joinPoints == o.joinPoints && r.tref == o.tref
    ensures o.mode == Dynamics && o.timing == T ==> r == o
    ensures !(o.mode == Dynamics && o.timing == T) ==> r.name == "_timelapsed_" + o.name
  {
    if o.mode == Dynamics && o.timing == T then o
    else o.(mode := Dynamics, timing := T, name := "_timelapsed_" + o.name)
  }

  // ---------------------------------------------------------------------------
  // The label is a faithful code: decoding it gives the observable back

  /** Characters of a written reference time: 'root' or a decimal. */
  predicate TrefChars(s: string) {
    forall i :: 0 <= i < |s| ==> IsLower(s[i]) || IsDigit(s[i]) || s[i] == '.'
  }

  /** Characters that can occur before the first '_' of a label. */
  predicate HeadChars(s: string) {
    forall i :: 0 <= i < |s| ==>
      s[i] == 'T' || s[i] == 'M' || s[i] == 'J' || IsLower(s[i]) || IsDigit(s[i])
      || s[i] == '.' || s[i] == '-'
  }

  predicate WellFormedTref(t: Tref) {
    t.Number? ==> t.value >= 0.0 && IsHundredths(t.value)
  }

  /** The observables whose label decodes to themselves: the raw name holds
      no '_', numbers are non-negative with at most two decimals, the time
      window is only set together with local fitting, and a timing letter or
      mode word outside the known ones is one the pattern accepts. */
  predicate WellFormed(o: Observable) {
    && NoChar(o.raw, '_')
    && WellFormedTref(o.tref)
    && (if o.localFit then o.timeWindow >= 0.0 && IsHundredths(o.timeWindow) else o.timeWindow == 0.0)
    && IsLower(TimingChar(o.timing)) && TimingOf(TimingChar(o.timing)) == o.timing
    && |ModeName(o.mode)| > 0
    && (forall i :: 0 <= i < |ModeName(o.mode)| ==> InClass(ModeName(o.mode)[i], ModeChar))
    && ModeOf(ModeName(o.mode)) == o.mode
  }

  /** A well-formed reference time is written in the shape the pattern
      accepts and reads back as itself. */
  lemma {:induction false} TrefRoundTrip(t: Tref)
    requires WellFormedTref(t)
    ensures TrefChars(TrefString(t)) && StrefShape(TrefString(t))
    ensures ParseTref(TrefString(t)) == Ok(t)
  {
    match t
    case NoRef =>
    case Root =>
      SpanEndOfRun("root", 0, 4, Lower);
    case Number(v) =>
      var p, q := Fixed2Parts(v);
      DecimalTrefShape(p, q);
      ParseFixed2(v);
  }

  /** A decimal written `p.q` has the characters and the shape of a
      reference time, starts with no letter, and is not 'root'. */
  lemma DecimalTrefShape(p: string, q: string)
    requires |p| > 0 && AllDigits(p) && AllDigits(q)
    ensures var s := p + "." + q;
            TrefChars(s) && StrefShape(s) && SpanEnd(s, 0, Lower) == 0 && s != "root"
  {
    var s := p + "." + q;
    assert forall i :: 0 <= i < |p| ==> s[i] == p[i];
    assert forall i :: |p| + 1 <= i < |s| ==> s[i] == q[i - |p| - 1];
    SpanEndOfRun(s, 0, 0, Lower);
    SpanEndOfRun(s, 0, |p|, Digit);
    SpanEndOfRun(s, |p|, |p| + 1, Separator);
    SpanEndOfRun(s, |p| + 1, |s|, Digit);
    assert s != "root" by { assert IsDigit(s[0]); }
  }

  lemma HeadCharsConcat(a: string, b: string)
    requires HeadChars(a) && HeadChars(b)
    ensures HeadChars(a + b)
  {
  }

  /** The head holds neither '_' nor 'W', so it is one piece and sets no
      window. */
  lemma {:induction false} HeadShape(o: Observable)
    requires WellFormed(o)
    ensures HeadChars(Head(o))
    ensures NoChar(Head(o), '_') && NoChar(Head(o), 'W')
  {
    TrefRoundTrip(o.tref);
    var ts, mn, js := TrefString(o.tref), ModeName(o.mode), NatToString(o.joinPoints);
    assert HeadChars(ts);
    assert HeadChars(mn);
    assert HeadChars(js);
    HeadCharsConcat("T", [TimingChar(o.timing)]);
    HeadCharsConcat("T" + [TimingChar(o.timing)], ts);
    HeadCharsConcat("T" + [TimingChar(o.timing)] + ts, "M");
    HeadCharsConcat("T" + [TimingChar(o.timing)] + ts + "M", mn);
    HeadCharsConcat("T" + [TimingChar(o.timing)] + ts + "M" + mn, "J");
    HeadCharsConcat("T" + [TimingChar(o.timing)] + ts + "M" + mn + "J", js);
  }

  /** The pattern reads the groups back from a string laid out as a label:
      'T', a letter, the reference time up to `m`, 'M', a mode word up to `j`,
      'J', digits up to `e`, and anything but a digit after them. */
  lemma {:induction false} MatchAt(s: string, m: nat, j: nat, e: nat)
    requires 2 <= m < j < e <= |s|
    requires s[0] == 'T' && IsLower(s[1])
    requires TrefChars(s[2..m]) && StrefShape(s[2..m])
    requires s[m] == 'M' && s[j] == 'J'
    requires j > m + 1 && forall i :: m + 1 <= i < j ==> InClass(s[i], ModeChar)
    requires e > j + 1 && forall i :: j + 1 <= i < e ==> IsDigit(s[i])
    requires e < |s| ==> !IsDigit(s[e])
    ensures MatchCode(s) == Some(CodeMatch(s[1], s[2..m], s[m + 1..j], s[j + 1..e]))
  {
    assert forall i :: 2 <= i < m ==> s[i] == s[2..m][i - 2];
    FindFromAt(s, 'M', 2, m);
    FindFromAt(s, 'J', m + 1, j);
    SpanEndOfRun(s, m + 1, j, ModeChar);
    SpanEndOfRun(s, j + 1, e, Digit);
    MatchModeSome(s, m, j, e);
  }

  /** The groups after 'M' are read once 'J' and the two runs are found. */
  lemma MatchModeSome(s: string, m: nat, j: nat, e: nat)
    requires 2 <= m < j < e <= |s| && IsLower(s[1])
    requires FindFrom(s, 'J', m + 1) == Some(j) && j != m + 1 && SpanEnd(s, m + 1, ModeChar) == j
    requires SpanEnd(s, j + 1, Digit) == e && e != j + 1
    ensures MatchMode(s, m) == Some(CodeMatch(s[1], s[2..m], s[m + 1..j], s[j + 1..e]))
  {
  }

  /** The pattern reads the groups back from the start of a label. */
  lemma {:induction false} MatchHead(tc: char, ts: string, mn: string, js: string, rest: string)
    requires IsLower(tc) && StrefShape(ts) && TrefChars(ts)
    requires |mn| > 0 && forall i :: 0 <= i < |mn| ==> InClass(mn[i], ModeChar)
    requires |js| > 0 && AllDigits(js)
    requires |rest| > 0 && rest[0] == '_'
    ensures MatchCode("T" + [tc] + ts + "M" + mn + "J" + js + rest) == Some(CodeMatch(tc, ts, mn, js))
  {
    var s := "T" + [tc] + ts + "M" + mn + "J" + js + rest;
    var m := 2 + |ts|;
    var j := m + 1 + |mn|;
    var e := j + 1 + |js|;
    assert s[2..m] == ts;
    assert s[m + 1..j] == mn;
    assert s[j + 1..e] == js;
    assert s[m] == 'M' && s[j] == 'J' && s[e] == '_';
    assert forall i :: m + 1 <= i < j ==> s[i] == mn[i - m - 1];
    assert forall i :: j + 1 <= i < e ==> s[i] == js[i - j - 1];
    MatchAt(s, m, j, e);
  }

  /** An optional item followed by '_' splits off as its own piece. */
  lemma SplitOptional(b: bool, x: string, rest: string)
    requires b ==> NoChar(x, '_')
    ensures Split((if b then x + "_" else "") + rest, '_') == (if b then [x] else []) + Split(rest, '_')
  {
    if b {
      assert x + "_" + rest == x + ['_'] + rest;
      SplitCons(x, '_', rest);
    } else {
      assert "" + rest == rest;
    }
  }

  /** The optional items and the last piece, joined by '_'. */
  function Flagged(x: string, y: string, z: string, raw: string, bd: bool, bw: bool, bl: bool): string {
    (if bd then x + "_" else "") + ((if bw then y + "_" else "") + ((if bl then z + "_" else "") + raw))
  }

  function Optional(b: bool, x: string): seq<string> {
    if b then [x] else []
  }

  lemma {:induction false} SplitFlaggedTail(x: string, y: string, z: string, raw: string,
                                            bd: bool, bw: bool, bl: bool)
    requires NoChar(raw, '_')
    requires (bd ==> NoChar(x, '_')) && (bw ==> NoChar(y, '_')) && (bl ==> NoChar(z, '_'))
    ensures Split(Flagged(x, y, z, raw, bd, bw, bl), '_')
            == Optional(bd, x) + (Optional(bw, y) + (Optional(bl, z) + [raw]))
  {
    var l := (if bl then z + "_" else "") + raw;
    var w := (if bw then y + "_" else "") + l;
    SplitNoSeparator(raw, '_');
    SplitOptional(bl, z, raw);
    SplitOptional(bw, y, l);
    SplitOptional(bd, x, w);
  }

  lemma Regroup(h: string, dl: seq<string>, wl: seq<string>, ll: seq<string>, raw: string)
    ensures [h] + (dl + (wl + (ll + [raw]))) == [h] + (dl + (wl + ll)) + [raw]
  {
    assert wl + (ll + [raw]) == (wl + ll) + [raw];
    assert dl + ((wl + ll) + [raw]) == (dl + (wl + ll)) + [raw];
  }

  /** Splitting a head, optional items and a last piece joined by '_'. */
  lemma {:induction false} SplitFlagged(h: string, x: string, y: string, z: string, raw: string,
                                       bd: bool, bw: bool, bl: bool)
    requires NoChar(h, '_') && NoChar(raw, '_')
    requires (bd ==> NoChar(x, '_')) && (bw ==> NoChar(y, '_')) && (bl ==> NoChar(z, '_'))
    ensures Split(h + "_" + Flagged(x, y, z, raw, bd, bw, bl), '_')
            == [h] + (Optional(bd, x) + (Optional(bw, y) + Optional(bl, z))) + [raw]
  {
    var d := Flagged(x, y, z, raw, bd, bw, bl);
    SplitFlaggedTail(x, y, z, raw, bd, bw, bl);
    SplitCons(h, '_', d);
    assert h + "_" + d == h + ['_'] + d;
    Regroup(h, Optional(bd, x), Optional(bw, y), Optional(bl, z), raw);
  }

  lemma {:induction false} WindowPiece(tw: real)
    requires tw >= 0.0 && IsHundredths(tw)
    ensures NoChar("W" + Fixed2(tw), '_')
  {
    var p, q := Fixed2Parts(tw);
    assert "W" + Fixed2(tw) == "W" + p + "." + q;
  }

  /** Splitting a label on '_' gives its pieces. */
  lemma {:induction false} SplitLabel(o: Observable)
    requires WellFormed(o)
    ensures Split(Label(o), '_') == Pieces(o)
  {
    var win := "W" + Fixed2(o.timeWindow);
    if o.localFit {
      WindowPiece(o.timeWindow);
    }
    HeadShape(o);
    assert "dot_" == "dot" + "_" && "log_" == "log" + "_";
    assert Label(o) == Head(o) + "_" + Flagged("dot", win, "log", o.raw, o.differentiate, o.localFit, o.scale == Log);
    SplitFlagged(Head(o), "dot", win, "log", o.raw, o.differentiate, o.localFit, o.scale == Log);
  }

  lemma ApplyItemsCons(x: string, xs: seq<string>, f: Flags)
    ensures ApplyItem(x, f).Err? ==> ApplyItems([x] + xs, f) == Err(ApplyItem(x, f).error)
    ensures ApplyItem(x, f).Ok? ==> ApplyItems([x] + xs, f) == ApplyItems(xs, ApplyItem(x, f).value)
  {
    assert ([x] + xs)[1..] == xs;
  }

  /** A window item `W<value>` sets the window and local fitting. */
  lemma {:induction false} WindowItem(tw: real, f: Flags)
    requires tw >= 0.0 && IsHundredths(tw)
    ensures ApplyItem("W" + Fixed2(tw), f) == Ok(f.(timeWindow := tw, localFit := true))
  {
    var p, q := Fixed2Parts(tw);
    var s := "W" + Fixed2(tw);
    WindowGroup(p, q);
    assert s == "W" + p + "." + q;
    ParseFixed2(tw);
    ApplyWindow(s, tw, f);
  }

  lemma ApplyWindow(item: string, tw: real, f: Flags)
    requires FindFrom(item, 'W', 0) == Some(0) && WindowEnd(item, 0) == |item| > 1
    requires ParseDecimal(item[1..|item|]) == Some(tw) && item != "log" && item != "dot"
    ensures ApplyItem(item, f) == Ok(f.(timeWindow := tw, localFit := true))
  {
  }

  /** In `W<p>.<q>` the window group is everything after the 'W'. */
  lemma WindowGroup(p: string, q: string)
    requires AllDigits(p) && AllDigits(q)
    ensures var s := "W" + p + "." + q;
            FindFrom(s, 'W', 0) == Some(0) && WindowEnd(s, 0) == |s| > 1 && s[1..|s|] == p + "." + q
            && s != "log" && s != "dot"
  {
    var s := "W" + p + "." + q;
    assert forall i :: 1 <= i < 1 + |p| ==> s[i] == p[i - 1];
    assert forall i :: 2 + |p| <= i < |s| ==> s[i] == q[i - |p| - 2];
    SpanEndOfRun(s, 1, 1 + |p|, Digit);
    SpanEndOfRun(s, 1 + |p|, 2 + |p|, Separator);
    SpanEndOfRun(s, 2 + |p|, |s|, Digit);
    assert s[0] == 'W' && "log"[0] != 'W' && "dot"[0] != 'W';
  }

  /** An optional item that turns `f` into `g` when present. */
  lemma ApplyOptional(b: bool, x: string, rest: seq<string>, f: Flags, g: Flags)
    requires b ==> ApplyItem(x, f) == Ok(g)
    requires !b ==> g == f
    ensures ApplyItems((if b then [x] else []) + rest, f) == ApplyItems(rest, g)
  {
    if b {
      ApplyItemsCons(x, rest, f);
    } else {
      assert [] + rest == rest;
    }
  }

  /** Reading the items before the raw name gives back the flags. */
  lemma {:induction false} FlagsRoundTrip(o: Observable)
    requires WellFormed(o)
    ensures ApplyItems([Head(o)] + FlagPieces(o), DefaultFlags)
            == Ok(Flags(o.scale, o.differentiate, o.localFit, o.timeWindow))
  {
    HeadItemIgnored(o, DefaultFlags);
    FlagPiecesApply(o);
    ApplyItemsCons(Head(o), FlagPieces(o), DefaultFlags);
  }

  /** The head item changes no flag. */
  lemma {:induction false} HeadItemIgnored(o: Observable, f: Flags)
    requires WellFormed(o)
    ensures ApplyItem(Head(o), f) == Ok(f)
  {
    HeadShape(o);
    assert Head(o) != "log" && Head(o) != "dot" by { assert Head(o)[0] == 'T'; }
  }

  /** The flag items alone set exactly the flags they stand for. */
  lemma {:induction false} FlagPiecesApply(o: Observable)
    requires WellFormed(o)
    ensures ApplyItems(FlagPieces(o), DefaultFlags)
            == Ok(Flags(o.scale, o.differentiate, o.localFit, o.timeWindow))
  {
    var f0 := DefaultFlags;
    var f1 := if o.differentiate then f0.(differentiate := true) else f0;
    var f2 := if o.localFit then f1.(timeWindow := o.timeWindow, localFit := true) else f1;
    var f3 := if o.scale == Log then f2.(scale := Log) else f2;
    var ll: seq<string> := if o.scale == Log then ["log"] else [];
    var wl: seq<string> := if o.localFit then ["W" + Fixed2(o.timeWindow)] else [];
    if o.scale == Log {
      assert FindFrom("log", 'W', 0) == None;
    }
    ApplyOptional(o.scale == Log, "log", [], f2, f3);
    assert ll + [] == ll;
    if o.localFit {
      WindowItem(o.timeWindow, f1);
    }
    ApplyOptional(o.localFit, "W" + Fixed2(o.timeWindow), ll, f1, f2);
    if o.differentiate {
      assert FindFrom("dot", 'W', 0) == None;
    }
    ApplyOptional(o.differentiate, "dot", wl + ll, f0, f1);
    assert f3 == Flags(o.scale, o.differentiate, o.localFit, o.timeWindow);
  }

  /** The pattern finds the timing letter, reference time, mode and join
      points of a label. */
  lemma {:induction false} MatchLabel(o: Observable)
    requires WellFormed(o)
    ensures MatchCode(Label(o))
            == Some(CodeMatch(TimingChar(o.timing), TrefString(o.tref), ModeName(o.mode), NatToString(o.joinPoints)))
  {
    TrefRoundTrip(o.tref);
    var tail := Label(o)[|Head(o)|..];
    assert Label(o) == Head(o) + tail;
    MatchHead(TimingChar(o.timing), TrefString(o.tref), ModeName(o.mode), NatToString(o.joinPoints), tail);
  }

  /** `load_from_string(label)` restores every attribute but the name. */
  lemma {:induction false} DecodeLabel(o: Observable)
    requires WellFormed(o)
    ensures Decode(o.name, Label(o)) == Ok(o)
  {
    var items := Split(Label(o), '_');
    SplitLabel(o);
    assert items[..|items| - 1] == [Head(o)] + FlagPieces(o);
    assert items[|items| - 1] == o.raw;
    FlagsRoundTrip(o);
    TrefRoundTrip(o.tref);
    MatchLabel(o);
  }

  /** A ',' in the reference time reads as a '.'. */
  lemma {:induction false} TrefComma(p: string, q: string)
    requires AllDigits(p) && AllDigits(q)
    ensures ParseTref(p + "," + q) == ParseTref(p + "." + q)
  {
    var s1, s2 := p + "," + q, p + "." + q;
    assert s1[|p|] == ',' && s2[|p|] == '.';
    assert s1 != "root" && s2 != "root" by {
      if |p| < 4 { assert "root"[|p|] != ',' && "root"[|p|] != '.'; }
      else { assert "root"[0] != s1[0]; }
    }
    assert !IsLower(s1[0]) && !IsLower(s2[0]);
    ParseDecimalCommaDot(p, q);
  }

  /** A label does not record the name; the time-lapse counterpart of an
      observable has the label of its copy in dynamics mode at time 't'. */
  lemma TimelapseLabel(o: Observable)
    ensures Label(AsTimelapse(o)) == Label(o.(mode := Dynamics, timing := T))
  {
  }
}
