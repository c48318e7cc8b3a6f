/** Worked examples of `parse_input`. Each is first proved for every text
    whose lines have its shape, then instantiated with a concrete text.

    The concrete examples name their text and its lines as parameters fixed
    by `requires l1 == "..."` rather than writing the literals into the
    `ensures`: with the literals inline, the solver unfolds `Strip`, `KeyOf`
    and `SplitLines` on every literal at once and runs out of resources.
    Since each parameter is pinned to one value, every such lemma is still a
    statement about exactly one text. */
module ParserExamples {
  import opened Text
  import opened FieldParser

  /** A trimmed, non-blank, colon-free line continues the current key with
      exactly one space and the line itself. */
  lemma ContinuationOfTrimmedLine(c: string)
    requires !IsKeyLine(c) && c != "" && IsTrimmed(c)
    ensures Continuation([c]) == " " + c
  {
    StripTrimmed(c);
  }

  /** A sequence is its elements before `i`, its `i`-th element and its
      elements after `i`. */
  lemma SplitAround(lines: seq<string>, i: nat)
    requires i < |lines|
    ensures lines == lines[..i] + [lines[i]] + lines[i + 1..]
  {
    assert lines[..i + 1] == lines[..i] + [lines[i]];
    assert lines == lines[..i + 1] + lines[i + 1..];
  }

  /** No line after index `i` names `k`, restated for the slice after `i`. */
  lemma NotDefinedAfter(lines: seq<string>, i: nat, after: seq<string>, k: string)
    requires i < |lines| && after == lines[i + 1..]
    requires forall j :: i < j < |lines| ==> !Defines(lines[j], k)
    ensures forall j :: 0 <= j < |after| ==> !Defines(after[j], k)
  {
    forall j | 0 <= j < |after| ensures !Defines(after[j], k) {
      assert after[j] == lines[i + 1 + j];
    }
  }

  /** `LastDefinitionWins` from the initial state, with the key line given
      by its index and the expected value `v` spelled out by the caller. */
  lemma DefinitionAt(lines: seq<string>, i: nat, line: string, v: string)
    requires i < |lines| && lines[i] == line && IsKeyLine(line)
    requires forall j :: i < j < |lines| ==> !Defines(lines[j], KeyOf(line))
    requires v == ValueOf(line) + (if KeyOf(line) == "" then "" else Continuation(lines[i + 1..]))
    ensures KeyOf(line) in ParseLines(lines) && ParseLines(lines)[KeyOf(line)] == v
  {
    var after := lines[i + 1..];
    SplitAround(lines, i);
    NotDefinedAfter(lines, i, after, KeyOf(line));
    LastDefinitionWins(Init, lines[..i], line, after);
  }

  /** A value parsed from a text's lines is its value in `parse_input`'s
      result. */
  lemma FromLines(text: string, lines: seq<string>, k: string, v: string)
    requires SplitLines(text) == lines
    requires k in ParseLines(lines) && ParseLines(lines)[k] == v
    ensures k in ParseInput(text) && ParseInput(text)[k] == v
  {
    ParseInputValues(text);
  }

  /** Two key lines for different keys followed by one continuation line:
      the second key gets its value, one space and the continuation line. */
  lemma TwoFieldsSecondContinues(l1: string, l2: string, c: string)
    requires IsKeyLine(l2) && KeyOf(l2) != ""
    requires !IsKeyLine(c) && c != "" && IsTrimmed(c)
    ensures var r := ParseLines([l1, l2, c]);
      KeyOf(l2) in r && r[KeyOf(l2)] == ValueOf(l2) + " " + c
  {
    var lines := [l1, l2, c];
    assert lines[2..] == [c];
    ContinuationOfTrimmedLine(c);
    ConcatAssoc(ValueOf(l2), " ", c);
    DefinitionAt(lines, 1, l2, ValueOf(l2) + " " + c);
  }

  /** In the same shape, the first key keeps its own value when the second
      key differs from it. */
  lemma TwoFieldsFirstKept(l1: string, l2: string, c: string)
    requires IsKeyLine(l1) && IsKeyLine(l2) && KeyOf(l1) != KeyOf(l2) && !IsKeyLine(c)
    ensures var r := ParseLines([l1, l2, c]);
      KeyOf(l1) in r && r[KeyOf(l1)] == ValueOf(l1)
  {
    var lines := [l1, l2, c];
    assert forall j :: 0 < j < |lines| ==> !Defines(lines[j], KeyOf(l1)) by {
      forall j | 0 < j < |lines| ensures !Defines(lines[j], KeyOf(l1)) {
        if j == 1 { assert lines[j] == l2; } else { assert lines[j] == c; }
      }
    }
    assert Continuation(lines[1..]) == "" by {
      assert lines[1..][0] == l2;
    }
    assert ValueOf(l1) + "" == ValueOf(l1);
    DefinitionAt(lines, 0, l1, ValueOf(l1));
  }

  /** An expected key that no key line of the text names maps to `""`. */
  lemma UnnamedExpectedKey(text: string, e: string)
    requires e in ExpectedSet()
    requires forall j :: 0 <= j < |SplitLines(text)| ==> !Defines(SplitLines(text)[j], e)
    ensures e in ParseInput(text) && ParseInput(text)[e] == ""
  {
    ParseInputValues(text);
  }

  /** In the two-key shape, an expected key that neither key line names maps
      to `""`. */
  lemma TwoFieldsDefault(text: string, l1: string, l2: string, c: string, e: string)
    requires SplitLines(text) == [l1, l2, c]
    requires IsKeyLine(l1) && IsKeyLine(l2) && !IsKeyLine(c)
    requires e in ExpectedSet() && e != KeyOf(l1) && e != KeyOf(l2)
    ensures e in ParseInput(text) && ParseInput(text)[e] == ""
  {
    var lines := SplitLines(text);
    forall j | 0 <= j < |lines| ensures !Defines(lines[j], e) {
      if j == 0 { assert lines[j] == l1; }
      else if j == 1 { assert lines[j] == l2; }
      else { assert lines[j] == c; }
    }
    UnnamedExpectedKey(text, e);
  }

  /** A key line followed by a continuation line appends it with a joining
      space, which is kept in front even when the value was empty. */
  lemma KeyThenContinuation(l1: string, c: string)
    requires IsKeyLine(l1) && KeyOf(l1) != ""
    requires !IsKeyLine(c) && c != "" && IsTrimmed(c)
    ensures var r := ParseLines([l1, c]);
      KeyOf(l1) in r && r[KeyOf(l1)] == ValueOf(l1) + " " + c
  {
    var lines := [l1, c];
    assert lines[1..] == [c];
    ContinuationOfTrimmedLine(c);
    ConcatAssoc(ValueOf(l1), " ", c);
    DefinitionAt(lines, 0, l1, ValueOf(l1) + " " + c);
  }

  /** Two key lines for the same key: the second value replaces the first. */
  lemma SameKeyTwice(l1: string, l2: string)
    requires IsKeyLine(l1) && IsKeyLine(l2) && KeyOf(l1) == KeyOf(l2)
    ensures var r := ParseLines([l1, l2]);
      KeyOf(l2) in r && r[KeyOf(l2)] == ValueOf(l2)
  {
    var lines := [l1, l2];
    assert lines[2..] == [];
    assert ValueOf(l2) + "" == ValueOf(l2);
    DefinitionAt(lines, 1, l2, ValueOf(l2));
  }

  /** A key line with the empty key followed by a colon-free line: the value
      is stored under `""` and the colon-free line is dropped. */
  lemma EmptyKeyDropsContinuation(l1: string, c: string)
    requires IsKeyLine(l1) && KeyOf(l1) == "" && !IsKeyLine(c)
    ensures var r := ParseLines([l1, c]);
      "" in r && r[""] == ValueOf(l1)
  {
    assert ValueOf(l1) + "" == ValueOf(l1);
    DefinitionAt([l1, c], 0, l1, ValueOf(l1));
  }

  /** The lines of two newline-free lines joined by a newline. */
  lemma LinesOfTwo(a: string, b: string)
    requires '\n' !in a && '\n' !in b
    ensures SplitLines(a + "\n" + b) == [a, b]
  {
    SplitPrefix(a, b);
    SplitNoNewline(b);
  }

  /** The lines of three newline-free lines joined by newlines. */
  lemma LinesOfThree(a: string, b: string, c: string)
    requires '\n' !in a && '\n' !in b && '\n' !in c
    ensures SplitLines(a + "\n" + b + "\n" + c) == [a, b, c]
  {
    var bc := b + "\n" + c;
    LinesOfTwo(b, c);
    SplitPrefix(a, bc);
    assert a + "\n" + b + "\n" + c == a + "\n" + bc by {
      ConcatAssoc(a + "\n", b, "\n" + c);
      ConcatAssoc(a + "\n" + b, "\n", c);
    }
    assert [a] + [b, c] == [a, b, c];
  }

  /* ------------------------------------------------------ concrete texts */

  /** `"A: B: C"` names field `"A"` with value `"B: C"`: only the first colon
      separates. */
  lemma ExampleFirstColonOnly(line: string)
    requires line == "A: B: C"
    ensures IsKeyLine(line) && KeyOf(line) == "A" && ValueOf(line) == "B: C"
  {
    KeyLineParts(line, "A", " ", "B: C");
  }

  /* The lemmas from here to `EmptyKeyLine` add nothing to the model: each
     is `KeyLineParts` (or plain evaluation) applied to one literal line.
     They exist only to keep each literal line in its own proof context,
     because two literal lines in one context make the solver unfold both. */

  lemma ProjectNameLine(l: string)
    requires l == "Project name: Foo"
    ensures '\n' !in l && IsKeyLine(l) && KeyOf(l) == "Project name" && ValueOf(l) == "Foo"
  {
    assert '\n' !in l;
    KeyLineParts(l, "Project name", " ", "Foo");
  }

  lemma DescriptionLine(l: string)
    requires l == "Description: A simple app"
    ensures '\n' !in l && IsKeyLine(l) && KeyOf(l) == "Description" && ValueOf(l) == "A simple app"
  {
    assert '\n' !in l;
    KeyLineParts(l, "Description", " ", "A simple app");
  }

  lemma TrackingLine(l: string)
    requires l == "for tracking tasks."
    ensures '\n' !in l && !IsKeyLine(l) && l != "" && IsTrimmed(l)
    ensures "A simple app" + " " + l == "A simple app for tracking tasks."
  {
  }

  lemma EmptyDescriptionLine(l: string)
    requires l == "Description:"
    ensures '\n' !in l && IsKeyLine(l) && KeyOf(l) == "Description" && ValueOf(l) == ""
  {
    assert '\n' !in l;
    KeyLineParts(l, "Description", "", "");
  }

  lemma IosLine(l: string)
    requires l == "Platforms: iOS"
    ensures '\n' !in l && IsKeyLine(l) && KeyOf(l) == "Platforms" && ValueOf(l) == "iOS"
  {
    assert '\n' !in l;
    KeyLineParts(l, "Platforms", " ", "iOS");
  }

  lemma AndroidLine(l: string)
    requires l == "Platforms: Android"
    ensures '\n' !in l && IsKeyLine(l) && KeyOf(l) == "Platforms" && ValueOf(l) == "Android"
  {
    assert '\n' !in l;
    KeyLineParts(l, "Platforms", " ", "Android");
  }

  lemma EmptyKeyLine(l: string)
    requires l == ": x"
    ensures '\n' !in l && IsKeyLine(l) && KeyOf(l) == "" && ValueOf(l) == "x"
  {
    assert '\n' !in l;
    KeyLineParts(l, "", " ", "x");
  }

  /** The lines of `"Project name: Foo\nDescription: A simple app\nfor
      tracking tasks."`. */
  lemma ContinuationTextLines(text: string, l1: string, l2: string, l3: string)
    requires l1 == "Project name: Foo" && l2 == "Description: A simple app" && l3 == "for tracking tasks."
    requires text == l1 + "\n" + l2 + "\n" + l3
    ensures SplitLines(text) == [l1, l2, l3]
  {
    ProjectNameLine(l1);
    DescriptionLine(l2);
    TrackingLine(l3);
    LinesOfThree(l1, l2, l3);
  }

  /** In that text, the continuation line is appended to Description. */
  lemma ContinuationTextDescription(text: string, l1: string, l2: string, l3: string)
    requires l1 == "Project name: Foo" && l2 == "Description: A simple app" && l3 == "for tracking tasks."
    requires text == l1 + "\n" + l2 + "\n" + l3
    ensures "Description" in ParseInput(text) && ParseInput(text)["Description"] == "A simple app for tracking tasks."
  {
    ContinuationTextLines(text, l1, l2, l3);
    DescriptionLine(l2);
    TrackingLine(l3);
    TwoFieldsSecondContinues(l1, l2, l3);
    FromLines(text, [l1, l2, l3], "Description", "A simple app for tracking tasks.");
  }

  /** In that text, Project name keeps its own value. */
  lemma ContinuationTextProjectName(text: string, l1: string, l2: string, l3: string)
    requires l1 == "Project name: Foo" && l2 == "Description: A simple app" && l3 == "for tracking tasks."
    requires text == l1 + "\n" + l2 + "\n" + l3
    ensures "Project name" in ParseInput(text) && ParseInput(text)["Project name"] == "Foo"
  {
    ContinuationTextLines(text, l1, l2, l3);
    ProjectNameLine(l1);
    DescriptionLine(l2);
    TrackingLine(l3);
    TwoFieldsFirstKept(l1, l2, l3);
    FromLines(text, [l1, l2, l3], "Project name", "Foo");
  }

  lemma OrganizationIsExpected()
    ensures "Organization" in ExpectedSet()
  {
    assert ExpectedKeys[1] == "Organization";
  }

  /** In that text, Organization is never named and maps to `""`. */
  lemma ContinuationTextOrganization(text: string, l1: string, l2: string, l3: string)
    requires l1 == "Project name: Foo" && l2 == "Description: A simple app" && l3 == "for tracking tasks."
    requires text == l1 + "\n" + l2 + "\n" + l3
    ensures "Organization" in ParseInput(text) && ParseInput(text)["Organization"] == ""
  {
    ContinuationTextLines(text, l1, l2, l3);
    ProjectNameLine(l1);
    DescriptionLine(l2);
    TrackingLine(l3);
    OrganizationIsExpected();
    TwoFieldsDefault(text, l1, l2, l3, "Organization");
  }

  /** The text `"Project name: Foo\nDescription: A simple app\nfor tracking
      tasks."`, given with its three lines, gives Description `"A simple app
      for tracking tasks."`, Project name `"Foo"` and Organization `""`. */
  lemma ExampleContinuation(text: string, l1: string, l2: string, l3: string)
    requires l1 == "Project name: Foo" && l2 == "Description: A simple app" && l3 == "for tracking tasks."
    requires text == l1 + "\n" + l2 + "\n" + l3
    ensures "Description" in ParseInput(text) && ParseInput(text)["Description"] == "A simple app for tracking tasks."
    ensures "Project name" in ParseInput(text) && ParseInput(text)["Project name"] == "Foo"
    ensures "Organization" in ParseInput(text) && ParseInput(text)["Organization"] == ""
  {
    ContinuationTextDescription(text, l1, l2, l3);
    ContinuationTextProjectName(text, l1, l2, l3);
    ContinuationTextOrganization(text, l1, l2, l3);
  }

  /** The text `"Description:\nfoo"` gives Description `" foo"`: the joining
      space stays even though the value was empty. */
  lemma ExampleLeadingSpace(text: string, l1: string, l2: string)
    requires l1 == "Description:" && l2 == "foo" && text == l1 + "\n" + l2
    ensures "Description" in ParseInput(text) && ParseInput(text)["Description"] == " foo"
  {
    assert '\n' !in l2 && !IsKeyLine(l2) && l2 != "" && IsTrimmed(l2);
    assert "" + " " + l2 == " foo";
    EmptyDescriptionLine(l1);
    LinesOfTwo(l1, l2);
    KeyThenContinuation(l1, l2);
    FromLines(text, [l1, l2], "Description", " foo");
  }

  /** The text `"Platforms: iOS\nPlatforms: Android"` gives Platforms
      `"Android"`. */
  lemma ExampleLaterKeyReplaces(text: string, l1: string, l2: string)
    requires l1 == "Platforms: iOS" && l2 == "Platforms: Android" && text == l1 + "\n" + l2
    ensures "Platforms" in ParseInput(text) && ParseInput(text)["Platforms"] == "Android"
  {
    IosLine(l1);
    AndroidLine(l2);
    LinesOfTwo(l1, l2);
    SameKeyTwice(l1, l2);
    FromLines(text, [l1, l2], "Platforms", "Android");
  }

  /** The text `": x\nmore"` stores `"x"` under the empty key and drops
      `"more"`. */
  lemma ExampleEmptyKey(text: string, l1: string, l2: string)
    requires l1 == ": x" && l2 == "more" && text == l1 + "\n" + l2
    ensures "" in ParseInput(text) && ParseInput(text)[""] == "x"
  {
    assert '\n' !in l2 && !IsKeyLine(l2);
    EmptyKeyLine(l1);
    LinesOfTwo(l1, l2);
    EmptyKeyDropsContinuation(l1, l2);
    FromLines(text, [l1, l2], "", "x");
  }
}
