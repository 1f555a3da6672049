/** Removal of the stanzas of an INI file that mention a tracing exit. */
module Stanza {
  import opened GoStrings
  import opened Basics

  // ---- Lines ----

  /** `bufio.ScanLines` drops one carriage return at the end of a line. */
  function DropCR(line: string): (r: string)
    ensures r <= line
  {
    if line != "" && line[|line| - 1] == '\r' then line[..|line| - 1] else line
  }

  function FirstLine(s: string): (r: string)
    ensures r <= s && (|r| == |s| || s[|r|] == '\n') && '\n' !in r
  {
    if s == "" || s[0] == '\n' then "" else [s[0]] + FirstLine(s[1..])
  }

  /** What is left after the first line and its line feed. */
  function AfterLine(s: string): (r: string)
    ensures s != "" ==> |r| < |s|
  {
    if |FirstLine(s)| < |s| then s[|FirstLine(s)| + 1..] else ""
  }

  function Lines(s: string): seq<string>
    decreases |s|
  {
    if s == "" then [] else [DropCR(FirstLine(s))] + Lines(AfterLine(s))
  }

  function Render(lines: seq<string>): string {
    if lines == [] then "" else Render(lines[..|lines| - 1]) + lines[|lines| - 1] + "\n"
  }

  // ---- Stanzas ----

  predicate IsHeader(line: string) {
    ':' in line
  }

  /** A header starts a group, and any other line makes the last one longer. */
  function WithLine(gs: seq<seq<string>>, t: string): (r: seq<seq<string>>)
    requires gs != []
    ensures r != []
  {
    if IsHeader(t) then gs + [[t]] else gs[..|gs| - 1] + [gs[|gs| - 1] + [t]]
  }

  /** The lines, cut in front of every header; the first group is what comes before them all. */
  function Groups(lines: seq<string>): (r: seq<seq<string>>)
    ensures r != []
  {
    if lines == [] then [[]] else WithLine(Groups(lines[..|lines| - 1]), lines[|lines| - 1])
  }

  predicate Mentions(line: string, exitName: string) {
    !IsHeader(line) && Contains(line, exitName)
  }

  predicate Dropped(group: seq<string>, exitName: string) {
    exists t :: t in group && Mentions(t, exitName)
  }

  predicate AnyDropped(gs: seq<seq<string>>, exitName: string) {
    exists k :: 0 <= k < |gs| && Dropped(gs[k], exitName)
  }

  /** The lines of the groups that are kept, in order. */
  function Kept(gs: seq<seq<string>>, exitName: string): seq<string> {
    if gs == [] then []
    else Kept(gs[..|gs| - 1], exitName) + if Dropped(gs[|gs| - 1], exitName) then [] else gs[|gs| - 1]
  }

  predicate IsStanza(group: seq<string>) {
    group != [] && IsHeader(group[0]) && forall i :: 1 <= i < |group| ==> !IsHeader(group[i])
  }

  /** Only the first group may be without a header at its front. */
  predicate AreStanzas(gs: seq<seq<string>>)
    requires gs != []
  {
    && (forall t :: t in gs[0] ==> !IsHeader(t))
    && forall k :: 1 <= k < |gs| ==> IsStanza(gs[k])
  }

  lemma WithLineJoined(gs: seq<seq<string>>, t: string)
    requires gs != []
    ensures Joined(WithLine(gs, t)) == Joined(gs) + [t]
  {
    if IsHeader(t) {
      JoinedSnoc(gs, [t]);
    } else {
      JoinedSnoc(gs[..|gs| - 1], gs[|gs| - 1] + [t]);
      Assoc(Joined(gs[..|gs| - 1]), gs[|gs| - 1], [t]);
    }
  }

  lemma WithLineStanzas(gs: seq<seq<string>>, t: string)
    requires gs != [] && AreStanzas(gs)
    ensures AreStanzas(WithLine(gs, t))
  {
  }

  /** The groups are all the lines in order, each but the first one with a header at its front and nowhere else. */
  lemma {:induction false} GroupsDivide(lines: seq<string>)
    ensures Joined(Groups(lines)) == lines && AreStanzas(Groups(lines))
  {
    if lines == [] {
    } else {
      var gs, t := Groups(lines[..|lines| - 1]), lines[|lines| - 1];
      GroupsDivide(lines[..|lines| - 1]);
      WithLineJoined(gs, t);
      WithLineStanzas(gs, t);
      Last(lines);
    }
  }

  /** The stanza filter as a whole: whether a stanza was dropped, and what is left. */
  function Removed(exitName: string, ini: string): (bool, string) {
    var gs := Groups(Lines(ini));
    if AnyDropped(gs, exitName) then (true, Render(Kept(gs, exitName))) else (false, ini)
  }

  // ---- The filter, line by line ----

  lemma {:induction false} RenderJoin(a: seq<string>, b: seq<string>)
    ensures Render(a + b) == Render(a) + Render(b)
    decreases |b|
  {
    if b == [] {
      Unit(a);
      Unit(Render(a));
    } else {
      var h, t := b[..|b| - 1], b[|b| - 1];
      RenderJoin(a, h);
      Last(b);
      Assoc(a, h, [t]);
      Front(a + h, t);
      Assoc(Render(a), Render(h), t);
      Assoc(Render(a), Render(h) + t, "\n");
    }
  }

  /** One more line closes the last group, or makes it longer. */
  lemma GroupsSnoc(lines: seq<string>, t: string)
    ensures Groups(lines + [t]) == WithLine(Groups(lines), t)
  {
    Front(lines, t);
  }

  lemma RenderSnoc(lines: seq<string>, t: string)
    ensures Render(lines + [t]) == Render(lines) + t + "\n"
  {
    Front(lines, t);
  }

  /** What the loop holds: the closed groups that are kept, and the open one. */
  ghost predicate Holds(exitName: string, lines: seq<string>, out: string, stanza: string, inside: bool, found: bool) {
    var gs := Groups(lines);
    var n := |gs| - 1;
    && out == Render(Kept(gs[..n], exitName))
    && stanza == Render(gs[n])
    && inside == Dropped(gs[n], exitName)
    && found == Dropped(lines, exitName)
  }

  lemma HoldsHeader(exitName: string, lines: seq<string>, out: string, stanza: string, inside: bool, found: bool,
                    t: string)
    requires Holds(exitName, lines, out, stanza, inside, found) && IsHeader(t)
    ensures Holds(exitName, lines + [t], if inside then out else out + stanza, "" + t + "\n", false, found)
  {
    var gs := Groups(lines);
    GroupsSnoc(lines, t);
    DroppedJoin(lines, [t], exitName);
    Front(gs, [t]);
    RenderJoin(Kept(gs[..|gs| - 1], exitName), if inside then [] else gs[|gs| - 1]);
    RenderSnoc([], t);
    Unit([t]);
    Unit(out);
  }

  lemma HoldsLine(exitName: string, lines: seq<string>, out: string, stanza: string, inside: bool, found: bool,
                  t: string)
    requires Holds(exitName, lines, out, stanza, inside, found) && !IsHeader(t)
    ensures var mentions := Contains(t, exitName);
            Holds(exitName, lines + [t], out, stanza + t + "\n", inside || mentions, found || mentions)
  {
    var gs := Groups(lines);
    GroupsSnoc(lines, t);
    Front(gs[..|gs| - 1], gs[|gs| - 1] + [t]);
    RenderSnoc(gs[|gs| - 1], t);
    DroppedJoin(lines, [t], exitName);
    DroppedJoin(gs[|gs| - 1], [t], exitName);
    assert Dropped([t], exitName) <==> Mentions([t][0], exitName);
  }

  lemma HoldsEnd(exitName: string, ini: string, out: string, stanza: string, inside: bool, found: bool)
    requires Holds(exitName, Lines(ini), out, stanza, inside, found)
    ensures Removed(exitName, ini) == (found, if !found then ini else if inside then out else out + stanza)
  {
    var gs := Groups(Lines(ini));
    var h, last := Kept(gs[..|gs| - 1], exitName), if inside then [] else gs[|gs| - 1];
    RenderJoin(h, last);
    Unit(out);
    DroppedIff(Lines(ini), exitName);
  }

  /** A group is dropped exactly when some line mentions the exit. */
  lemma DroppedIff(lines: seq<string>, exitName: string)
    ensures AnyDropped(Groups(lines), exitName) <==> Dropped(lines, exitName)
  {
    GroupsDivide(lines);
    InJoined(Groups(lines), exitName);
  }

  lemma {:induction false} InJoined(gs: seq<seq<string>>, exitName: string)
    ensures Dropped(Joined(gs), exitName) <==> AnyDropped(gs, exitName)
  {
    if gs == [] {
    } else {
      var n := |gs| - 1;
      InJoined(gs[..n], exitName);
      DroppedJoin(Joined(gs[..n]), gs[n], exitName);
      assert forall k :: 0 <= k < n ==> gs[k] == gs[..n][k];
    }
  }

  lemma DroppedJoin(a: seq<string>, b: seq<string>, exitName: string)
    ensures Dropped(a + b, exitName) <==> Dropped(a, exitName) || Dropped(b, exitName)
  {
    assert forall t :: t in a + b <==> t in a || t in b;
  }

  method RemoveTracingExitINIEntry(exitName: string, ini: string) returns (found: bool, result: string)
    ensures (found, result) == Removed(exitName, ini)
  {
    var rest, out, stanza, insideTracingExit := ini, "", "", false;
    found := false;
    ghost var lines: seq<string> := [];
    while rest != ""
      invariant Lines(ini) == lines + Lines(rest)
      invariant Holds(exitName, lines, out, stanza, insideTracingExit, found)
      decreases |rest|
    {
      var t := DropCR(FirstLine(rest));
      Assoc(lines, [t], Lines(AfterLine(rest)));
      rest := AfterLine(rest);
      if ':' in t {
        HoldsHeader(exitName, lines, out, stanza, insideTracingExit, found, t);
        if !insideTracingExit {
          out := out + stanza;
        }
        insideTracingExit, stanza := false, "";
      } else {
        HoldsLine(exitName, lines, out, stanza, insideTracingExit, found, t);
        if Contains(t, exitName) {
          insideTracingExit, found := true, true;
        }
      }
      stanza := stanza + t + "\n";
      lines := lines + [t];
    }
    Unit(lines);
    HoldsEnd(exitName, ini, out, stanza, insideTracingExit, found);
    if !insideTracingExit {
      out := out + stanza;
    }
    return found, if found then out else ini;
  }

  // ---- A second run ----

  function DropCRs(lines: seq<string>): (r: seq<string>)
    ensures |r| == |lines| && forall i :: 0 <= i < |r| ==> r[i] == DropCR(lines[i])
  {
    if lines == [] then [] else DropCRs(lines[..|lines| - 1]) + [DropCR(lines[|lines| - 1])]
  }

  predicate AreLines(lines: seq<string>) {
    forall t :: t in lines ==> '\n' !in t
  }

  lemma {:induction false} LinesAreLines(s: string)
    ensures AreLines(Lines(s))
    decreases |s|
  {
    if s == "" {
    } else {
      LinesAreLines(AfterLine(s));
    }
  }

  lemma {:induction false} FirstLineOf(t: string, rest: string)
    requires '\n' !in t
    ensures FirstLine(t + "\n" + rest) == t && AfterLine(t + "\n" + rest) == rest
  {
    var s := t + "\n" + rest;
    if t == "" {
      assert s[0] == '\n' && s[1..] == rest;
    } else {
      FirstLineOf(t[1..], rest);
      assert s[1..] == t[1..] + "\n" + rest;
      assert [t[0]] + t[1..] == t;
    }
  }

  /** One carriage return before a line feed, or at the end of the input, is not part of the line. */
  lemma CarriageReturnIsDropped(t: string, rest: string)
    requires '\n' !in t && (t == "" || t[|t| - 1] != '\r')
    ensures Lines((t + "\r") + "\n" + rest) == [t] + Lines(rest) && Lines(t + "\n" + rest) == [t] + Lines(rest)
    ensures Lines(t + "\r") == [t]
  {
    FirstLineOf(t + "\r", rest);
    FirstLineOf(t, rest);
    WholeLine(t + "\r");
  }

  lemma {:induction false} WholeLine(t: string)
    requires '\n' !in t
    ensures FirstLine(t) == t && AfterLine(t) == ""
  {
    if t == "" {
    } else {
      WholeLine(t[1..]);
      Head(t, 0);
    }
  }

  lemma Regroup(a: string, b: string, c: string, d: string)
    ensures a + b + c + d == a + (b + c + d)
  {
  }

  /** Scanning what was written gives the lines back, except for a carriage return at the end of one. */
  lemma {:induction false} LinesOfRender(lines: seq<string>, rest: string)
    requires AreLines(lines)
    ensures Lines(Render(lines) + rest) == DropCRs(lines) + Lines(rest)
    decreases |lines|
  {
    if lines == [] {
      Unit(rest);
      Unit(Lines(rest));
    } else {
      var h, t := lines[..|lines| - 1], lines[|lines| - 1];
      var more := t + "\n" + rest;
      LinesOfRender(h, more);
      FirstLineOf(t, rest);
      Regroup(Render(h), t, "\n", rest);
      Assoc(DropCRs(h), [DropCR(t)], Lines(rest));
    }
  }

  lemma {:induction false} KeptAreKept(gs: seq<seq<string>>, exitName: string)
    ensures forall t :: t in Kept(gs, exitName) ==> t in Joined(gs) && !Mentions(t, exitName)
  {
    if gs == [] {
    } else {
      KeptAreKept(gs[..|gs| - 1], exitName);
    }
  }

  lemma DropCRMentions(t: string, exitName: string)
    requires Mentions(DropCR(t), exitName)
    ensures Mentions(t, exitName)
  {
    var r := DropCR(t);
    var i :| 0 <= i <= |r| - |exitName| && OccursAt(r, exitName, i);
    assert OccursAt(t, exitName, i);
    assert ':' in t ==> ':' in r;
  }

  lemma NothingLeft(kept: seq<string>, exitName: string)
    requires AreLines(kept) && forall t :: t in kept ==> !Mentions(t, exitName)
    ensures forall t :: t in Lines(Render(kept)) ==> !Mentions(t, exitName)
  {
    LinesOfRender(kept, "");
    Unit(Render(kept));
    Unit(DropCRs(kept));
    forall t | t in DropCRs(kept) ensures !Mentions(t, exitName) {
      var i :| 0 <= i < |kept| && t == DropCR(kept[i]);
      assert kept[i] in kept;
      if Mentions(t, exitName) {
        DropCRMentions(kept[i], exitName);
      }
    }
  }

  lemma NothingToRemove(exitName: string, ini: string)
    requires forall t :: t in Lines(ini) ==> !Mentions(t, exitName)
    ensures Removed(exitName, ini) == (false, ini)
  {
    DroppedIff(Lines(ini), exitName);
  }

  /** A second run finds nothing and changes nothing. */
  lemma SecondRunChangesNothing(exitName: string, ini: string)
    ensures var once := Removed(exitName, ini).1; Removed(exitName, once) == (false, once)
  {
    var lines := Lines(ini);
    var gs := Groups(lines);
    KeptAreKept(gs, exitName);
    GroupsDivide(lines);
    LinesAreLines(ini);
    if Removed(exitName, ini).0 {
      NothingLeft(Kept(gs, exitName), exitName);
      NothingToRemove(exitName, Render(Kept(gs, exitName)));
    }
  }

  // ---- One stanza among others ----

  lemma WithLineAfter(a: seq<seq<string>>, b: seq<seq<string>>, t: string)
    requires b != [] && (IsHeader(t) || |b| > 1)
    ensures a + WithLine(b, t)[1..] == if IsHeader(t) then a + b[1..] + [[t]]
                                       else (a + b[1..])[..|a| + |b| - 2] + [b[|b| - 1] + [t]]
  {
  }

  /** Lines that begin with a header have their own groups. */
  lemma {:induction false} GroupsJoin(a: seq<string>, b: seq<string>)
    requires b == [] || ':' in b[0]
    ensures Groups(a + b) == Groups(a) + Groups(b)[1..]
    ensures Groups(b)[0] == [] && (b != [] ==> |Groups(b)| > 1)
    decreases |b|
  {
    if b == [] {
      Unit(a);
      Unit(Groups(a));
    } else {
      var h, t := b[..|b| - 1], b[|b| - 1];
      GroupsJoin(a, h);
      Last(b);
      Assoc(a, h, [t]);
      GroupsSnoc(a + h, t);
      GroupsSnoc(h, t);
      WithLineAfter(Groups(a), Groups(h), t);
    }
  }

  lemma {:induction false} KeptJoin(a: seq<seq<string>>, b: seq<seq<string>>, exitName: string)
    ensures Kept(a + b, exitName) == Kept(a, exitName) + Kept(b, exitName)
    decreases |b|
  {
    if b == [] {
      Unit(a);
      Unit(Kept(a, exitName));
    } else {
      var h, t := b[..|b| - 1], b[|b| - 1];
      KeptJoin(a, h, exitName);
      Last(b);
      Assoc(a, h, [t]);
      Front(a + h, t);
      Assoc(Kept(a, exitName), Kept(h, exitName), if Dropped(t, exitName) then [] else t);
    }
  }

  lemma {:induction false} AllKept(gs: seq<seq<string>>, exitName: string)
    requires !Dropped(Joined(gs), exitName)
    ensures Kept(gs, exitName) == Joined(gs)
  {
    if gs == [] {
    } else {
      DroppedJoin(Joined(gs[..|gs| - 1]), gs[|gs| - 1], exitName);
      AllKept(gs[..|gs| - 1], exitName);
    }
  }

  predicate IsLine(t: string) {
    '\n' !in t && (t == "" || t[|t| - 1] != '\r')
  }

  predicate MentionsExit(lines: seq<string>, exitName: string) {
    exists t :: t in lines && ':' !in t && Contains(t, exitName)
  }

  lemma {:induction false} DropCRsNothing(lines: seq<string>)
    requires forall t :: t in lines ==> IsLine(t)
    ensures DropCRs(lines) == lines && AreLines(lines)
  {
    if lines == [] {
    } else {
      DropCRsNothing(lines[..|lines| - 1]);
      assert lines[|lines| - 1] in lines;
      Last(lines);
    }
  }

  lemma LinesOf(lines: seq<string>)
    requires forall t :: t in lines ==> IsLine(t)
    ensures Lines(Render(lines)) == lines
  {
    DropCRsNothing(lines);
    LinesOfRender(lines, "");
    Unit(Render(lines));
    Unit(lines);
  }

  lemma StanzaGroups(pre: seq<string>, header: string, body: seq<string>, post: seq<string>)
    requires ':' in header && (forall t :: t in body ==> ':' !in t) && (post == [] || ':' in post[0])
    ensures Groups(pre + (([header] + body) + post)) == Groups(pre) + ([[header] + body] + Groups(post)[1..])
  {
    var stanza := [header] + body;
    OneGroup(header, body);
    GroupsJoin(stanza, post);
    GroupsJoin(pre, stanza + post);
    SecondAndRest(stanza, Groups(post)[1..]);
  }

  lemma SecondAndRest(g: seq<string>, gs: seq<seq<string>>)
    ensures ([[], g] + gs)[1..] == [g] + gs
  {
  }

  lemma {:induction false} OneGroup(header: string, body: seq<string>)
    requires ':' in header && forall t :: t in body ==> ':' !in t
    ensures Groups([header] + body) == [[], [header] + body]
    decreases |body|
  {
    if body == [] {
      Unit([header]);
      GroupsSnoc([], header);
    } else {
      var h, t := body[..|body| - 1], body[|body| - 1];
      assert t in body;
      OneGroup(header, h);
      Last(body);
      Assoc([header], h, [t]);
      GroupsSnoc([header] + h, t);
      WithPlainLine([header] + h, t);
    }
  }

  lemma WithPlainLine(g: seq<string>, t: string)
    requires ':' !in t
    ensures WithLine([[], g], t) == [[], g + [t]]
  {
  }

  /** A stanza, from its line with a colon up to the next one, is removed when a line without a colon in it has the
      exit's name, and everything around it stays; otherwise nothing changes. */
  lemma StanzaIsRemovedIff(exitName: string, pre: seq<string>, header: string, body: seq<string>, post: seq<string>)
    requires ':' in header && (forall t :: t in body ==> ':' !in t) && (post == [] || ':' in post[0])
    requires forall t :: t in pre + (([header] + body) + post) ==> IsLine(t)
    requires !MentionsExit(pre, exitName) && !MentionsExit(post, exitName)
    ensures var ini := Render(pre + (([header] + body) + post));
            Removed(exitName, ini) ==
            if MentionsExit(body, exitName) then (true, Render(pre) + Render(post)) else (false, ini)
  {
    var stanza := [header] + body;
    var lines := pre + (stanza + post);
    LinesOf(lines);
    DroppedIff(lines, exitName);
    DroppedJoin(pre, stanza + post, exitName);
    DroppedJoin(stanza, post, exitName);
    DroppedJoin([header], body, exitName);
    if MentionsExit(body, exitName) {
      StanzaGroups(pre, header, body, post);
      KeptAround(exitName, pre, stanza, post);
      RenderJoin(pre, post);
    }
  }

  lemma KeptAround(exitName: string, pre: seq<string>, stanza: seq<string>, post: seq<string>)
    requires Dropped(stanza, exitName) && !Dropped(pre, exitName) && !Dropped(post, exitName)
    requires post == [] || ':' in post[0]
    ensures Kept(Groups(pre) + ([stanza] + Groups(post)[1..]), exitName) == pre + post
  {
    var after := Groups(post)[1..];
    KeptJoin(Groups(pre), [stanza] + after, exitName);
    KeptJoin([stanza], after, exitName);
    KeptOne(stanza, exitName);
    GroupsDivide(pre);
    AllKept(Groups(pre), exitName);
    GroupsJoin([], post);
    GroupsDivide(post);
    Head(Groups(post), 0);
    JoinedAppend([[]], after);
    JoinedOne<string>([]);
    AllKept(after, exitName);
  }

  lemma KeptOne(group: seq<string>, exitName: string)
    requires Dropped(group, exitName)
    ensures Kept([group], exitName) == []
  {
    assert [group][..0] == [];
  }
}
