/** ConfService.restoreRawBlocks: raw blocks are put back where markers stand for them, one marker at a time. */
module RawBlocks {
  import opened Text

  datatype Entry = Entry(marker: string, block: string)

  function Line(e: Entry): string {
    e.marker + ";"
  }

  // ----- searching -----

  /** text.indexOf(w, from). */
  function FindText(s: string, w: string, from: nat): (r: Option<nat>)
    ensures r.Some? ==> from <= r.value && Occurs(s, w, r.value) && forall i | from <= i < r.value :: !Occurs(s, w, i)
    ensures r.None? ==> forall i | from <= i :: !Occurs(s, w, i)
    decreases |s| - from
  {
    if from + |w| > |s| then None
    else if Occurs(s, w, from) then Some(from)
    else FindText(s, w, from + 1)
  }

  /** The position behind the last newline before position i. */
  function LineStart(s: string, i: nat): (r: nat)
    requires i <= |s|
    ensures r <= i
    ensures forall k | r <= k < i :: s[k] != '\n'
    ensures r > 0 ==> s[r - 1] == '\n'
  {
    if i == 0 || s[i - 1] == '\n' then i else LineStart(s, i - 1)
  }

  function Indent(s: string, i: nat): string
    requires i <= |s|
  {
    s[LineStart(s, i)..i]
  }

  predicate IsIndent(s: string) {
    forall c | c in s :: c == ' ' || c == '\t'
  }

  predicate EndsInBrace(block: string) {
    block != "" && block[|block| - 1] == '}'
  }

  /** The block as it is put back: indented before its last brace. */
  function Rendered(block: string, indent: string): string
    requires block != ""
  {
    block[..|block| - 1] + indent + block[|block| - 1..]
  }

  // ----- the loop -----

  /** One turn of the loop: None stands for the exception. */
  function RestoreOne(conf: string, e: Entry): Option<string> {
    match FindText(conf, Line(e), 0)
    case None => None
    case Some(at) =>
      if FindText(conf, Line(e), at + |Line(e)|).Some? then None
      else if !IsIndent(Indent(conf, at)) then None
      else if !EndsInBrace(e.block) then None
      else Some(conf[..at] + Rendered(e.block, Indent(conf, at)) + conf[at + |Line(e)|..])
  }

  function RestoreFrom(conf: string, es: seq<Entry>, k: nat): Option<string>
    requires k <= |es|
    decreases |es| - k
  {
    if k == |es| then Some(conf)
    else
      match RestoreOne(conf, es[k])
      case None => None
      case Some(next) => RestoreFrom(next, es, k + 1)
  }

  predicate MarkerLeft(conf: string, es: seq<Entry>) {
    exists e :: e in es && Contains(conf, e.marker)
  }

  function Restore(conf: string, es: seq<Entry>): Option<string> {
    var r := RestoreFrom(conf, es, 0);
    if r.None? || MarkerLeft(r.value, es) then None else r
  }

  /** The body of the first loop. */
  method PutBack(conf: string, e: Entry) returns (r: Option<string>)
    ensures r == RestoreOne(conf, e)
  {
    var markerLine := e.marker + ";";
    var at := FindText(conf, markerLine, 0);
    if at.None? { return None; }
    var again := FindText(conf, markerLine, at.value + |markerLine|);
    if again.Some? { return None; }
    var lineStart := LineStart(conf, at.value);
    var indent := conf[lineStart..at.value];
    if exists c | c in indent :: c != ' ' && c != '\t' { return None; }
    var rendered := e.block;
    if rendered == "" || rendered[|rendered| - 1] != '}' { return None; }
    var close := |rendered| - 1;
    rendered := rendered[..close] + indent + rendered[close..];
    r := Some(conf[..at.value] + rendered + conf[at.value + |markerLine|..]);
  }

  method RestoreRawBlocks(text: string, rawBlocks: seq<Entry>) returns (r: Option<string>)
    ensures r == Restore(text, rawBlocks)
    ensures r.Some? ==> forall e | e in rawBlocks :: !Contains(r.value, e.marker)
  {
    hide RestoreOne;
    var conf := text;
    for k := 0 to |rawBlocks|
      invariant RestoreFrom(text, rawBlocks, 0) == RestoreFrom(conf, rawBlocks, k)
    {
      var next := PutBack(conf, rawBlocks[k]);
      if next.None? { return None; }
      conf := next.value;
    }
    var left := AnyMarkerLeft(conf, rawBlocks);
    r := if left then None else Some(conf);
  }

  method AnyMarkerLeft(conf: string, rawBlocks: seq<Entry>) returns (left: bool)
    ensures left == MarkerLeft(conf, rawBlocks)
  {
    for k := 0 to |rawBlocks|
      invariant forall j | 0 <= j < k :: !Contains(conf, rawBlocks[j].marker)
    {
      var found := FindText(conf, rawBlocks[k].marker, 0);
      if found.Some? {
        assert rawBlocks[k] in rawBlocks;
        assert Occurs(conf, rawBlocks[k].marker, found.value);
        return true;
      }
    }
    left := false;
  }

  // ----- what addRawBlockEntry guarantees about the markers -----

  /** No character of a marker is a blank, a tab, a newline, a semicolon or a closing brace. */
  predicate MarkerText(m: string) {
    m != "" && forall c | c in m :: c != ' ' && c != '\t' && c != '\n' && c != ';' && c != '}'
  }

  /** Distinct markers of one length; no block contains a marker. */
  predicate Clean(es: seq<Entry>) {
    && (forall j | 0 <= j < |es| :: MarkerText(es[j].marker))
    && (forall j, k | 0 <= j < |es| && 0 <= k < |es| :: |es[j].marker| == |es[k].marker|)
    && (forall j, k | 0 <= j < |es| && 0 <= k < |es| && j != k :: es[j].marker != es[k].marker)
    && (forall j, k | 0 <= j < |es| && 0 <= k < |es| :: !Contains(es[k].block, es[j].marker))
  }

  // ----- simultaneous substitution, defined in one pass over the skeleton -----

  /** What the marker line at position i stands for, if one is there. */
  function Slot(s: string, es: seq<Entry>, i: nat, k: nat): (r: Option<(nat, string)>)
    requires i <= |s| && k <= |es|
    ensures r.Some? ==> 0 < r.value.0 <= |s| - i
    decreases |es| - k
  {
    if k == |es| then None
    else if Occurs(s, Line(es[k]), i) && es[k].block != "" then
      Some((|Line(es[k])|, Rendered(es[k].block, Indent(s, i))))
    else Slot(s, es, i, k + 1)
  }

  /** How far the pass moves at position i. */
  function StepLength(s: string, es: seq<Entry>, i: nat): (n: nat)
    requires i < |s|
    ensures 0 < n <= |s| - i
  {
    var slot := Slot(s, es, i, 0);
    if slot.Some? then slot.value.0 else 1
  }

  /** What it writes there. */
  function Piece(s: string, es: seq<Entry>, i: nat): string
    requires i < |s|
  {
    var slot := Slot(s, es, i, 0);
    if slot.Some? then slot.value.1 else [s[i]]
  }

  /** Copy the skeleton from position i on, each marker line replaced by its block. */
  function Substituted(s: string, es: seq<Entry>, i: nat): string
    requires i <= |s|
    decreases |s| - i
  {
    if i == |s| then "" else Piece(s, es, i) + Substituted(s, es, i + StepLength(s, es, i))
  }

  // ----- when it succeeds -----

  /** The marker line occurs exactly once, behind nothing but an indent on its line. */
  ghost predicate OwnLine(s: string, e: Entry) {
    exists at | 0 <= at <= |s| ::
      && Occurs(s, Line(e), at) && IsIndent(Indent(s, at))
      && forall i | Occurs(s, Line(e), i) :: i == at
  }

  /** The marker stands only in its marker line. */
  ghost predicate NoStray(s: string, e: Entry) {
    forall i | Occurs(s, e.marker, i) :: Occurs(s, Line(e), i)
  }

  ghost predicate Ready(s: string, es: seq<Entry>) {
    forall e | e in es :: OwnLine(s, e) && NoStray(s, e) && EndsInBrace(e.block)
  }
}
