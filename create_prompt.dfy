/**
 * `formatTemporalTasks`: the text block that presents the three temporal
 * rings to the language model, one section per non-empty ring, or a fixed
 * sentence when all three are empty.
 *
 * `toISOString` is the parameter `iso`: the formatter only places its output.
 */
module CreatePrompt {
  import opened Common
  import opened TaskModel
  import opened TemporalRings

  const Header: string := "### Relevant Past & Upcoming Tasks"
  const Fallback: string := "No relevant past or upcoming tasks found in temporal rings."
  const TodayLabel: string := "Today (Closest to Now)"
  const DaysLabel: string := "Previous Days (Closest to This Time)"
  const WeeksLabel: string := "Previous Weeks - Same Day (Closest to This Time)"

  /** One task as `- title: description (Due: <iso>, Card color: hex)`. */
  function TaskLine(t: Task, iso: Millis -> string): string
  {
    "- " + t.title + ": " + t.description + " (Due: " + iso(t.dueAt) + ", Card color: " + t.hexColour + ")"
  }

  /** Every task line opens with `-` and closes with `)`. */
  lemma TaskLineEdges(t: Task, iso: Millis -> string)
    ensures |TaskLine(t, iso)| > 0
    ensures TaskLine(t, iso)[0] == '-' && TaskLine(t, iso)[|TaskLine(t, iso)| - 1] == ')'
  {
  }

  /** `tasks.map(...)`: the task lines in ring order. */
  function Lines(tasks: seq<Task>, iso: Millis -> string): (ls: seq<string>)
    ensures |ls| == |tasks|
    ensures forall i :: 0 <= i < |tasks| ==> ls[i] == TaskLine(tasks[i], iso)
  {
    if tasks == [] then [] else [TaskLine(tasks[0], iso)] + Lines(tasks[1..], iso)
  }

  /** `.join('\n')`. */
  function Join(ls: seq<string>): string
  {
    if ls == [] then ""
    else if |ls| == 1 then ls[0]
    else ls[0] + "\n" + Join(ls[1..])
  }

  /** Joining one more line adds a newline and that line at the end. */
  lemma {:induction false} JoinAppend(ls: seq<string>, l: string)
    ensures Join(ls + [l]) == if ls == [] then l else Join(ls) + "\n" + l
  {
    if |ls| > 1 {
      var rest := ls[1..];
      assert (ls + [l])[1..] == rest + [l];
      JoinAppend(rest, l);
      assert Join(ls + [l]) == ls[0] + "\n" + Join(rest + [l]);
      assert Join(ls) == ls[0] + "\n" + Join(rest);
    } else if |ls| == 1 {
      assert (ls + [l])[1..] == [l];
    }
  }

  /** A join of lines that all close with `)` closes with `)`. */
  lemma {:induction false} JoinEnds(ls: seq<string>)
    requires ls != []
    requires forall i :: 0 <= i < |ls| ==> |ls[i]| > 0 && ls[i][|ls[i]| - 1] == ')'
    ensures |Join(ls)| > 0 && Join(ls)[|Join(ls)| - 1] == ')'
  {
    if |ls| > 1 {
      JoinEnds(ls[1..]);
    }
  }

  /** The inner `formatList`: nothing for an empty ring, else a labelled block of its lines. */
  function FormatList(heading: string, tasks: seq<Task>, iso: Millis -> string): string
  {
    if tasks == [] then "" else "\n" + heading + ":\n" + Join(Lines(tasks, iso))
  }

  /**
   * A ring of one more task lists that task's line last: the block grows by a
   * newline and the line, or starts with the heading when the ring was empty.
   */
  lemma FormatListAppend(heading: string, tasks: seq<Task>, t: Task, iso: Millis -> string)
    ensures FormatList(heading, tasks + [t], iso) ==
      if tasks == [] then "\n" + heading + ":\n" + TaskLine(t, iso)
      else FormatList(heading, tasks, iso) + "\n" + TaskLine(t, iso)
  {
    assert Lines(tasks + [t], iso) == Lines(tasks, iso) + [TaskLine(t, iso)];
    JoinAppend(Lines(tasks, iso), TaskLine(t, iso));
  }

  /** A non-empty ring's block opens with a newline and its heading, and closes with `)`. */
  lemma FormatListEdges(heading: string, tasks: seq<Task>, iso: Millis -> string)
    requires tasks != []
    ensures |FormatList(heading, tasks, iso)| > |heading| + 2
    ensures FormatList(heading, tasks, iso)[..|heading| + 3] == "\n" + heading + ":\n"
    ensures FormatList(heading, tasks, iso)[|FormatList(heading, tasks, iso)| - 1] == ')'
  {
    var ls := Lines(tasks, iso);
    forall i | 0 <= i < |ls| ensures |ls[i]| > 0 && ls[i][|ls[i]| - 1] == ')' {
      TaskLineEdges(tasks[i], iso);
    }
    JoinEnds(ls);
    var opening, lines := "\n" + heading + ":\n", Join(ls);
    assert FormatList(heading, tasks, iso) == opening + lines;
    LastOfConcat(opening, lines);
  }

  /** The last character of a concatenation is its second part's, when that is not empty. */
  lemma LastOfConcat(a: string, b: string)
    requires b != []
    ensures (a + b)[..|a|] == a && (a + b)[|a + b| - 1] == b[|b| - 1]
  {
  }

  /** `String.prototype.trim`'s white space and line terminators. */
  predicate IsJsSpace(c: char)
  {
    c == '\t' || c == '\n' || c == '\U{000B}' || c == '\U{000C}' || c == '\r' || c == ' ' ||
    c == '\U{00A0}' || c == '\U{1680}' || ('\U{2000}' <= c <= '\U{200A}') ||
    c == '\U{2028}' || c == '\U{2029}' || c == '\U{202F}' || c == '\U{205F}' ||
    c == '\U{3000}' || c == '\U{FEFF}'
  }

  /** `s` without its leading white space. */
  function TrimStart(s: string): (r: string)
    ensures |r| <= |s| && r == s[|s| - |r|..]
    ensures r == [] || !IsJsSpace(r[0])
    ensures forall i :: 0 <= i < |s| - |r| ==> IsJsSpace(s[i])
  {
    if s != [] && IsJsSpace(s[0]) then TrimStart(s[1..]) else s
  }

  /** `s` without its trailing white space. */
  function TrimEnd(s: string): (r: string)
    ensures |r| <= |s| && r == s[..|r|]
    ensures r == [] || !IsJsSpace(r[|r| - 1])
    ensures forall i :: |r| <= i < |s| ==> IsJsSpace(s[i])
  {
    if s != [] && IsJsSpace(s[|s| - 1]) then TrimEnd(s[..|s| - 1]) else s
  }

  /** `trim()`. */
  function Trim(s: string): string
  {
    TrimEnd(TrimStart(s))
  }

  /** Text that neither opens nor closes with white space is its own trim. */
  lemma TrimUnchanged(s: string)
    requires s != [] && !IsJsSpace(s[0]) && !IsJsSpace(s[|s| - 1])
    ensures Trim(s) == s
  {
  }

  /** The header followed by each ring's block, in the fixed order. */
  function Sections(rings: TemporalTasks, iso: Millis -> string): string
  {
    Header + FormatList(TodayLabel, rings.ring1, iso) + FormatList(DaysLabel, rings.ring2, iso)
      + FormatList(WeeksLabel, rings.ring3, iso)
  }

  predicate AllEmpty(rings: TemporalTasks)
  {
    rings.ring1 == [] && rings.ring2 == [] && rings.ring3 == []
  }

  /** What the proofs need of the fixed strings. */
  lemma FixedStrings()
    ensures |Header| > 0 && Header[0] == '#' && Header[|Header| - 1] == 's'
    ensures !IsJsSpace(Header[0]) && !IsJsSpace(Header[|Header| - 1])
    ensures |Fallback| > 0 && Fallback[|Fallback| - 1] == '.'
  {
  }

  /** Blocks that are empty or close with `)`, not all empty, close the text with `)`. */
  lemma BlocksClose(h: string, l1: string, l2: string, l3: string)
    requires l1 == [] || l1[|l1| - 1] == ')'
    requires l2 == [] || l2[|l2| - 1] == ')'
    requires l3 == [] || l3[|l3| - 1] == ')'
    requires l1 != [] || l2 != [] || l3 != []
    ensures (h + l1 + l2 + l3)[|h + l1 + l2 + l3| - 1] == ')'
  {
    if l3 != [] {
      LastOfConcat(h + l1 + l2, l3);
    } else if l2 != [] {
      assert h + l1 + l2 + l3 == h + l1 + l2;
      LastOfConcat(h + l1, l2);
    } else {
      assert h + l1 + l2 + l3 == h + l1;
      LastOfConcat(h, l1);
    }
  }

  /** The text opens with `h`, and is `h` alone exactly when every block is empty. */
  lemma BlocksFollow(h: string, l1: string, l2: string, l3: string)
    ensures (h + l1 + l2 + l3)[..|h|] == h
    ensures h + l1 + l2 + l3 == h <==> l1 == [] && l2 == [] && l3 == []
  {
    assert h + l1 + l2 + l3 == h + (l1 + l2 + l3);
    assert (h + (l1 + l2 + l3))[..|h|] == h;
    if h + l1 + l2 + l3 == h {
      assert |l1| + |l2| + |l3| == 0;
    }
  }

  /**
   * After a piece that opens and closes with no white space, blocks that are
   * empty or close with `)` leave nothing for trimming to remove.
   */
  lemma BlocksTrimmed(h: string, l1: string, l2: string, l3: string)
    requires h != [] && !IsJsSpace(h[0]) && !IsJsSpace(h[|h| - 1])
    requires l1 == [] || l1[|l1| - 1] == ')'
    requires l2 == [] || l2[|l2| - 1] == ')'
    requires l3 == [] || l3[|l3| - 1] == ')'
    ensures Trim(h + l1 + l2 + l3) == h + l1 + l2 + l3
  {
    var s := h + l1 + l2 + l3;
    BlocksFollow(h, l1, l2, l3);
    if l1 != [] || l2 != [] || l3 != [] {
      BlocksClose(h, l1, l2, l3);
    }
    assert s[0] == h[0];
    TrimUnchanged(s);
  }

  /** Each ring's block is empty or closes with `)`. */
  lemma FormatListCloses(heading: string, tasks: seq<Task>, iso: Millis -> string)
    ensures FormatList(heading, tasks, iso) == [] <==> tasks == []
    ensures FormatList(heading, tasks, iso) == [] ||
      FormatList(heading, tasks, iso)[|FormatList(heading, tasks, iso)| - 1] == ')'
  {
    if tasks != [] {
      FormatListEdges(heading, tasks, iso);
    }
  }

  /**
   * For any header without white space at its edges and any headings, the
   * header followed by three blocks is left as it is by trimming.
   */
  lemma BlocksShape(h: string, k1: string, k2: string, k3: string, r1: seq<Task>, r2: seq<Task>, r3: seq<Task>,
                    iso: Millis -> string)
    requires h != [] && !IsJsSpace(h[0]) && !IsJsSpace(h[|h| - 1])
    ensures Trim(h + FormatList(k1, r1, iso) + FormatList(k2, r2, iso) + FormatList(k3, r3, iso)) ==
      h + FormatList(k1, r1, iso) + FormatList(k2, r2, iso) + FormatList(k3, r3, iso)
  {
    FormatListCloses(k1, r1, iso);
    FormatListCloses(k2, r2, iso);
    FormatListCloses(k3, r3, iso);
    BlocksTrimmed(h, FormatList(k1, r1, iso), FormatList(k2, r2, iso), FormatList(k3, r3, iso));
  }

  /** Unless all rings are empty, the header followed by three blocks closes with a task line's `)`. */
  lemma BlocksEnd(h: string, k1: string, k2: string, k3: string, r1: seq<Task>, r2: seq<Task>, r3: seq<Task>,
                  iso: Millis -> string)
    requires r1 != [] || r2 != [] || r3 != []
    ensures var s := h + FormatList(k1, r1, iso) + FormatList(k2, r2, iso) + FormatList(k3, r3, iso);
      s[|s| - 1] == ')'
  {
    FormatListCloses(k1, r1, iso);
    FormatListCloses(k2, r2, iso);
    FormatListCloses(k3, r3, iso);
    BlocksClose(h, FormatList(k1, r1, iso), FormatList(k2, r2, iso), FormatList(k3, r3, iso));
  }

  /** The header followed by three blocks opens with the header, and is the header alone exactly when all rings are empty. */
  lemma BlocksOpen(h: string, k1: string, k2: string, k3: string, r1: seq<Task>, r2: seq<Task>, r3: seq<Task>,
                   iso: Millis -> string)
    ensures (h + FormatList(k1, r1, iso) + FormatList(k2, r2, iso) + FormatList(k3, r3, iso))[..|h|] == h
    ensures h + FormatList(k1, r1, iso) + FormatList(k2, r2, iso) + FormatList(k3, r3, iso) == h <==>
      r1 == [] && r2 == [] && r3 == []
  {
    FormatListCloses(k1, r1, iso);
    FormatListCloses(k2, r2, iso);
    FormatListCloses(k3, r3, iso);
    BlocksFollow(h, FormatList(k1, r1, iso), FormatList(k2, r2, iso), FormatList(k3, r3, iso));
  }

  /** `BlocksShape`, `BlocksOpen` and `BlocksEnd` for the formatter's own header and headings. */
  lemma SectionsTrimmed(rings: TemporalTasks, iso: Millis -> string)
    ensures Trim(Sections(rings, iso)) == Sections(rings, iso)
    ensures Sections(rings, iso)[..|Header|] == Header
    ensures Sections(rings, iso) == Header <==> AllEmpty(rings)
    ensures !AllEmpty(rings) ==> Sections(rings, iso)[|Sections(rings, iso)| - 1] == ')'
  {
    FixedStrings();
    BlocksShape(Header, TodayLabel, DaysLabel, WeeksLabel, rings.ring1, rings.ring2, rings.ring3, iso);
    BlocksOpen(Header, TodayLabel, DaysLabel, WeeksLabel, rings.ring1, rings.ring2, rings.ring3, iso);
    if !AllEmpty(rings) {
      BlocksEnd(Header, TodayLabel, DaysLabel, WeeksLabel, rings.ring1, rings.ring2, rings.ring3, iso);
    }
  }

  /** Trim `text`; a result equal to `h` alone is replaced by `f`. */
  function Choose(text: string, h: string, f: string): string
  {
    var trimmed := Trim(text);
    if trimmed == h then f else trimmed
  }

  /**
   * For text that trimming keeps and that is either `h` alone or closes
   * with `)`, and a replacement `f` that does not close with `)`: the
   * result is `f` exactly when the text is `h` alone, and the text itself
   * otherwise.
   */
  lemma ChooseSpec(text: string, h: string, f: string)
    requires Trim(text) == text
    requires text == h || (text != [] && text[|text| - 1] == ')')
    requires f != [] && f[|f| - 1] != ')'
    ensures Choose(text, h, f) == f <==> text == h
    ensures text != h ==> Choose(text, h, f) == text
  {
    if text != h {
      assert text[|text| - 1] != f[|f| - 1];
    }
  }

  /**
   * Trimming the header and three blocks and replacing the header alone by
   * `f` yields `f` exactly when all three rings are empty, and otherwise the
   * untrimmed text, which opens with the header and is longer than it.
   */
  lemma ChooseBlocks(h: string, f: string, k1: string, k2: string, k3: string,
                     r1: seq<Task>, r2: seq<Task>, r3: seq<Task>, iso: Millis -> string)
    requires h != [] && !IsJsSpace(h[0]) && !IsJsSpace(h[|h| - 1])
    requires f != [] && f[|f| - 1] != ')'
    ensures var text := h + FormatList(k1, r1, iso) + FormatList(k2, r2, iso) + FormatList(k3, r3, iso);
      (Choose(text, h, f) == f <==> r1 == [] && r2 == [] && r3 == []) &&
      (r1 != [] || r2 != [] || r3 != [] ==> Choose(text, h, f) == text && |text| > |h| && text[..|h|] == h)
  {
    var text := h + FormatList(k1, r1, iso) + FormatList(k2, r2, iso) + FormatList(k3, r3, iso);
    BlocksShape(h, k1, k2, k3, r1, r2, r3, iso);
    BlocksOpen(h, k1, k2, k3, r1, r2, r3, iso);
    if r1 != [] || r2 != [] || r3 != [] {
      BlocksEnd(h, k1, k2, k3, r1, r2, r3, iso);
    }
    ChooseSpec(text, h, f);
  }

  /** `formatTemporalTasks`, building its text by three appends. */
  method FormatTemporalTasks(rings: TemporalTasks, iso: Millis -> string) returns (s: string)
    ensures s == Fallback <==> AllEmpty(rings)
    ensures !AllEmpty(rings) ==> s == Sections(rings, iso)
    ensures !AllEmpty(rings) ==> |s| > |Header| && s[..|Header|] == Header
  {
    var formatted := Header;
    formatted := formatted + FormatList(TodayLabel, rings.ring1, iso);
    formatted := formatted + FormatList(DaysLabel, rings.ring2, iso);
    formatted := formatted + FormatList(WeeksLabel, rings.ring3, iso);
    s := Choose(formatted, Header, Fallback);
    FixedStrings();
    ChooseBlocks(Header, Fallback, TodayLabel, DaysLabel, WeeksLabel, rings.ring1, rings.ring2, rings.ring3, iso);
  }
}
