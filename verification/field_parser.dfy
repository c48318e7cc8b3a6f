/** The key/value field extractor `parse_input` (app.py:30-45): it turns the
    text of an uploaded app description into a map from field names to values.
    The text is split into lines; a line with a colon names a field and gives
    its value, a non-blank colon-free line continues the value of the field
    named last, and at the end every expected field that never appeared is
    added with an empty value. */
module FieldParser {
  import opened Wrappers
  import opened Text

  /** The nine fields the downstream prompt expects, in the source's order. */
  const ExpectedKeys: seq<string> := [
    "Project name", "Organization", "Bundle Name", "Platforms", "Description",
    "Primary functionality", "Design Preferences", "Color Scheme", "Target Audience"
  ]

  /** The elements of a sequence of strings, as a set. */
  function Elements(keys: seq<string>): set<string> {
    set i | 0 <= i < |keys| :: keys[i]
  }

  /** The expected fields as a set. */
  function ExpectedSet(): set<string> {
    Elements(ExpectedKeys)
  }

  lemma ElementsCons(keys: seq<string>)
    requires keys != []
    ensures Elements(keys) == {keys[0]} + Elements(keys[1..])
  {
    forall x | x in Elements(keys) ensures x in {keys[0]} + Elements(keys[1..]) {
      var i :| 0 <= i < |keys| && keys[i] == x;
      if i > 0 { assert keys[1..][i - 1] == x; }
    }
  }

  /* ------------------------------------------------------------ one line */

  /** Python's `':' in line`: the line names a field. */
  predicate IsKeyLine(line: string) {
    ':' in line
  }

  /** The field a key line names: the stripped text before its first colon. */
  function KeyOf(line: string): string
    requires IsKeyLine(line)
  {
    Strip(SplitAtFirst(line, ':').0)
  }

  /** The value a key line gives: the stripped text after its first colon. */
  function ValueOf(line: string): string
    requires IsKeyLine(line)
  {
    Strip(SplitAtFirst(line, ':').1)
  }

  /** A line is split at its FIRST colon only: whatever follows it, colons
      included, is the value; both halves are stripped (app.py:35-38). */
  lemma KeyLineSplitsAtFirstColon(line: string, head: string, tail: string)
    requires line == head + ":" + tail && ':' !in head
    ensures IsKeyLine(line)
    ensures KeyOf(line) == Strip(head) && ValueOf(line) == Strip(tail)
  {
    assert line[|head|] == ':';
    SplitAtFirstUnique(line, ':', head, tail);
  }

  /** A key line `k:` followed by white space and `v`, with `k` and `v`
      already trimmed, names `k` and gives `v`. */
  lemma KeyLineParts(line: string, k: string, pad: string, v: string)
    requires line == k + ":" + pad + v
    requires ':' !in k && IsTrimmed(k) && IsBlank(pad) && IsTrimmed(v)
    ensures IsKeyLine(line) && KeyOf(line) == k && ValueOf(line) == v
  {
    assert line == k + ":" + (pad + v);
    KeyLineSplitsAtFirstColon(line, k, pad + v);
    StripTrimmed(k);
    StripPadding(pad, v, "");
    assert pad + v + "" == pad + v;
  }

  /** The line is a key line naming field `k`. */
  predicate Defines(line: string, k: string) {
    IsKeyLine(line) && KeyOf(line) == k
  }

  /** The loop state of `parse_input`: the map built so far (`app_info`) and
      the field named last (`current_key`, `None` before any key line). */
  datatype ParserState = ParserState(info: map<string, string>, current: Option<string>)

  /** Python treats `current_key` as true when it is a non-empty string. */
  predicate HasCurrent(st: ParserState) {
    st.current.Some? && st.current.value != ""
  }

  /** The loop invariant: a current key that Python treats as true is already
      a key of the map, so the `+=` on a continuation line cannot miss. */
  predicate Inv(st: ParserState) {
    HasCurrent(st) ==> st.current.value in st.info
  }

  /** The state before the first line: an empty map and no current key. */
  const Init: ParserState := ParserState(map[], None)

  /** One iteration of the loop over lines (app.py:35-40). */
  function Step(st: ParserState, line: string): (r: ParserState)
    requires Inv(st)
    ensures Inv(r)
  {
    if IsKeyLine(line) then
      var k := KeyOf(line);
      ParserState(st.info[k := ValueOf(line)], Some(k))
    else if HasCurrent(st) && Strip(line) != "" then
      var k := st.current.value;
      ParserState(st.info[k := st.info[k] + " " + Strip(line)], st.current)
    else
      st
  }

  /** The loop over all lines, starting from state `st`. The invariant is
      kept by every step, which is why `parse_input` never raises. */
  function Run(st: ParserState, lines: seq<string>): (r: ParserState)
    requires Inv(st)
    ensures Inv(r)
    decreases |lines|
  {
    if lines == [] then st else Run(Step(st, lines[0]), lines[1..])
  }

  /** The final loop over the expected keys (app.py:41-44): each key of
      `keys` missing from `info` is added with the empty value; nothing that
      was already there changes. */
  function Fill(info: map<string, string>, keys: seq<string>): (r: map<string, string>)
    ensures r.Keys == info.Keys + Elements(keys)
    ensures forall k :: k in info ==> r[k] == info[k]
    ensures forall k :: k in r && k !in info ==> r[k] == ""
    decreases |keys|
  {
    if keys == [] then info
    else
      var next := if keys[0] in info then info else info[keys[0] := ""];
      ElementsCons(keys);
      Fill(next, keys[1..])
  }

  /** The fields parsed from a list of lines, before the expected keys are
      filled in. */
  function ParseLines(lines: seq<string>): map<string, string> {
    Run(Init, lines).info
  }

  /** `parse_input`: the complete field map of a text. */
  function ParseInput(text: string): (r: map<string, string>)
    ensures ExpectedSet() <= r.Keys
    ensures forall k :: k in r && k !in ParseLines(SplitLines(text)) ==> r[k] == ""
  {
    Fill(ParseLines(SplitLines(text)), ExpectedKeys)
  }

  /* ---------------------------------------------------- reference facts */

  /** The stripped keys of all key lines among `lines`. */
  function SeenKeys(lines: seq<string>): set<string> {
    set i | 0 <= i < |lines| && IsKeyLine(lines[i]) :: KeyOf(lines[i])
  }

  /** The text continuation lines add to the value of a non-empty current
      key: `" " + strip(line)` for each non-blank line up to the next key
      line. */
  function Continuation(lines: seq<string>): string
    decreases |lines|
  {
    if lines == [] || IsKeyLine(lines[0]) then ""
    else Piece(lines[0]) + Continuation(lines[1..])
  }

  /** What one colon-free line adds to a non-empty current key's value. */
  function Piece(line: string): string {
    if Strip(line) == "" then "" else " " + Strip(line)
  }

  /** A colon-free line keeps the current key and appends its piece to that
      key's value, unless the key is empty. */
  lemma StepContinuesCurrent(st: ParserState, line: string, k: string)
    requires Inv(st) && st.current == Some(k) && k in st.info && !IsKeyLine(line)
    ensures Step(st, line).current == Some(k) && k in Step(st, line).info
    ensures Step(st, line).info[k] == st.info[k] + (if k == "" then "" else Piece(line))
  {
  }

  /** Running two stretches of lines one after the other is running them
      together: the loop has no hidden state besides `ParserState`. */
  lemma {:induction false} RunAppend(st: ParserState, a: seq<string>, b: seq<string>)
    requires Inv(st)
    ensures Run(st, a + b) == Run(Run(st, a), b)
    decreases |a|
  {
    if a != [] {
      assert (a + b)[1..] == a[1..] + b;
      RunAppend(Step(st, a[0]), a[1..], b);
    } else {
      assert a + b == b;
    }
  }

  /** The keys of the map after the loop are the keys before it plus the key
      of every key line: continuation lines never add a key. */
  lemma {:induction false} RunKeys(st: ParserState, lines: seq<string>)
    requires Inv(st)
    ensures Run(st, lines).info.Keys == st.info.Keys + SeenKeys(lines)
    decreases |lines|
  {
    if lines != [] {
      RunKeys(Step(st, lines[0]), lines[1..]);
      var first := if IsKeyLine(lines[0]) then {KeyOf(lines[0])} else {};
      assert SeenKeys(lines) == first + SeenKeys(lines[1..]) by {
        forall x | x in SeenKeys(lines) ensures x in first + SeenKeys(lines[1..]) {
          var i :| 0 <= i < |lines| && IsKeyLine(lines[i]) && KeyOf(lines[i]) == x;
          if i > 0 { assert lines[1..][i - 1] == lines[i]; }
        }
        forall x | x in SeenKeys(lines[1..]) ensures x in SeenKeys(lines) {
          var i :| 0 <= i < |lines[1..]| && IsKeyLine(lines[1..][i]) && KeyOf(lines[1..][i]) == x;
          assert lines[i + 1] == lines[1..][i];
        }
      }
    } else {
      assert SeenKeys(lines) == {};
    }
  }

  /** The keys of `parse_input`'s result are exactly the stripped keys of the
      text's key lines together with the nine expected keys; unexpected keys
      are kept. */
  lemma ParseInputKeys(text: string)
    ensures ParseInput(text).Keys == SeenKeys(SplitLines(text)) + ExpectedSet()
  {
    RunKeys(Init, SplitLines(text));
  }

  /** An expected key that the text never names maps to `""`; every parsed
      key, expected or not, keeps its parsed value. */
  lemma ParseInputValues(text: string)
    ensures forall k :: k in ExpectedSet() && k !in SeenKeys(SplitLines(text)) ==> ParseInput(text)[k] == ""
    ensures forall k :: k in ParseLines(SplitLines(text)) ==> ParseInput(text)[k] == ParseLines(SplitLines(text))[k]
  {
    RunKeys(Init, SplitLines(text));
  }

  /** While the current key is not `k` and no later line names `k`, the
      value stored under `k` (or its absence) does not change. */
  lemma {:induction false} RunLeavesOtherKey(st: ParserState, lines: seq<string>, k: string)
    requires Inv(st)
    requires st.current != Some(k)
    requires forall j :: 0 <= j < |lines| ==> !Defines(lines[j], k)
    ensures k in Run(st, lines).info <==> k in st.info
    ensures k in st.info ==> Run(st, lines).info[k] == st.info[k]
    decreases |lines|
  {
    if lines != [] {
      assert !Defines(lines[0], k);
      RunLeavesOtherKey(Step(st, lines[0]), lines[1..], k);
    }
  }

  /** Once a key line has made `k` current, the lines after it that never
      name `k` again append exactly their continuation to `k`'s value; with
      the empty key nothing is appended, because Python treats `""` as
      false. */
  lemma {:induction false} RunFromCurrent(st: ParserState, lines: seq<string>, k: string)
    requires Inv(st)
    requires st.current == Some(k) && k in st.info
    requires forall j :: 0 <= j < |lines| ==> !Defines(lines[j], k)
    ensures k in Run(st, lines).info
    ensures Run(st, lines).info[k] == st.info[k] + (if k == "" then "" else Continuation(lines))
    decreases |lines|
  {
    if lines != [] {
      if IsKeyLine(lines[0]) {
        KeyLineEndsContinuation(st, lines, k);
      } else {
        RunFromCurrent(Step(st, lines[0]), lines[1..], k);
        ContinuationLineAppends(st, lines, k);
      }
    }
  }

  /** A colon-free line continues `k`: whatever the remaining lines append
      after it, the whole run appends the line's piece first. */
  lemma ContinuationLineAppends(st: ParserState, lines: seq<string>, k: string)
    requires Inv(st) && st.current == Some(k) && k in st.info
    requires lines != [] && !IsKeyLine(lines[0])
    requires var next := Step(st, lines[0]);
      && k in Run(next, lines[1..]).info
      && Run(next, lines[1..]).info[k] == next.info[k] + (if k == "" then "" else Continuation(lines[1..]))
    ensures k in Run(st, lines).info
    ensures Run(st, lines).info[k] == st.info[k] + (if k == "" then "" else Continuation(lines))
  {
    var next := Step(st, lines[0]);
    assert Run(st, lines) == Run(next, lines[1..]);
    StepContinuesCurrent(st, lines[0], k);
    if k != "" {
      var v, p, c := st.info[k], Piece(lines[0]), Continuation(lines[1..]);
      assert Continuation(lines) == p + c;
      ConcatAssoc(v, p, c);
    }
  }

  /** A key line naming another field ends the continuation of `k`: from
      there on `k` keeps its value. */
  lemma KeyLineEndsContinuation(st: ParserState, lines: seq<string>, k: string)
    requires Inv(st) && st.current == Some(k) && k in st.info
    requires lines != [] && IsKeyLine(lines[0])
    requires forall j :: 0 <= j < |lines| ==> !Defines(lines[j], k)
    ensures k in Run(st, lines).info && Run(st, lines).info[k] == st.info[k]
  {
    assert !Defines(lines[0], k);
    RunLeavesOtherKey(Step(st, lines[0]), lines[1..], k);
  }

  /** The value of a field is set by the LAST key line naming it, which
      replaces anything stored earlier, followed by the continuation lines
      right after that key line (app.py:35-40). */
  lemma LastDefinitionWins(st: ParserState, before: seq<string>, line: string, after: seq<string>)
    requires Inv(st) && IsKeyLine(line)
    requires forall j :: 0 <= j < |after| ==> !Defines(after[j], KeyOf(line))
    ensures KeyOf(line) in Run(st, before + [line] + after).info
    ensures Run(st, before + [line] + after).info[KeyOf(line)]
      == ValueOf(line) + (if KeyOf(line) == "" then "" else Continuation(after))
  {
    RunAppend(st, before + [line], after);
    RunAppend(st, before, [line]);
    var mid := Run(st, before);
    assert Run(mid, [line]) == Step(mid, line);
    RunFromCurrent(Step(mid, line), after, KeyOf(line));
  }

  /** The same statement for `parse_input`, on a text whose lines are
      `before`, the key line and `after`. */
  lemma ParseInputLastDefinition(text: string, before: seq<string>, line: string, after: seq<string>)
    requires SplitLines(text) == before + [line] + after
    requires IsKeyLine(line)
    requires forall j :: 0 <= j < |after| ==> !Defines(after[j], KeyOf(line))
    ensures KeyOf(line) in ParseInput(text)
    ensures ParseInput(text)[KeyOf(line)]
      == ValueOf(line) + (if KeyOf(line) == "" then "" else Continuation(after))
  {
    LastDefinitionWins(Init, before, line, after);
  }

  /** Lines that are blank or colon-free and come before any key line leave
      the state as it is. */
  lemma {:induction false} IgnoredLines(lines: seq<string>)
    requires forall j :: 0 <= j < |lines| ==> !IsKeyLine(lines[j])
    ensures Run(Init, lines) == Init
    decreases |lines|
  {
    if lines != [] {
      assert Step(Init, lines[0]) == Init;
      IgnoredLines(lines[1..]);
    }
  }
}
