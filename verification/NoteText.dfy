/** What a clamped note and a merged log keep of the text they are given. */
module NoteTexts {
  import opened Notes
  import opened Unicode

  // ----- one more line -----

  /** A log with one more clamped line: at the end, unless it is empty, there already, or
      one too many. */
  function Appended(log: string, line: string): string {
    if line == [] || line in Split(log) then log
    else if log == [] then line
    else if |log| + 1 + |line| > 4000 then log
    else log + "\n" + line
  }

  lemma SettledParts(log: string) returns (parts: seq<string>)
    requires Settled(log)
    ensures LogLines(parts) && log == Join(parts) && |log| <= 4000
    ensures parts == [] <==> log == []
    ensures parts != [] ==> Split(log) == parts
  {
    var all;
    all, parts := LogShape([log]);
    assert forall i :: 0 <= i < |parts| ==> parts[i] == all[i];
    if parts != [] {
      NoBreaks(parts);
      SplitJoin(parts);
      JoinGrows(parts[..1], parts);
    }
  }

  lemma CleanLine(line: string)
    requires Clean(line)
    ensures Split(line) == [line] && Clamp(line) == line
  {
    assert forall i :: 0 <= i < |line| ==> !IsControl(line[i]);
    SplitOneLine(line);
    CleanIsFixed(line);
  }

  lemma DedupeOfLog(log: string, parts: seq<string>, line: string)
    requires LogLines(parts) && Clean(line)
    requires if parts == [] then log == [] else Split(log) == parts
    ensures Dedupe(LinesOf([log, line])) == if line == [] || line in parts then parts else parts + [line]
  {
    LinesOfTwo(log, line);
    CleanLine(line);
    DedupeStep(Split(log), line);
    if parts == [] {
      assert Split(log) == [[]];
      assert Dedupe([[]]) == [] by { CleanIsFixed([]); }
    } else {
      DedupeId(parts);
    }
  }

  lemma FitOneMore(parts: seq<string>, line: string)
    requires |Join(parts)| <= 4000
    ensures Fit(parts + [line]) == if |Join(parts + [line])| <= 4000 then parts + [line] else parts
  {
    FitWhole(parts);
    assert (parts + [line])[..|parts|] == parts;
  }

  lemma JoinOneMore(parts: seq<string>, line: string)
    ensures Join(parts + [line]) == if parts == [] then line else Join(parts) + "\n" + line
  {
    assert (parts + [line])[..|parts|] == parts;
  }

  lemma KnownLine(log: string, parts: seq<string>, line: string)
    requires if parts == [] then log == [] else Split(log) == parts
    ensures line == [] || line in Split(log) <==> line == [] || line in parts
  {
  }

  /** Merging one clamped line into a settled log. */
  lemma AppendOneLine(log: string, line: string)
    requires Settled(log) && Clean(line)
    ensures Log([log, line]) == Appended(log, line)
  {
    var parts := SettledParts(log);
    DedupeOfLog(log, parts, line);
    KnownLine(log, parts, line);
    FitWhole(parts);
    if !(line == [] || line in parts) {
      FitOneMore(parts, line);
      JoinOneMore(parts, line);
    }
  }

  // ----- what a clamped note keeps -----

  /** The runes that show, in order. */
  function Visible(s: string): string {
    if s == [] then []
    else Visible(s[..|s| - 1]) + (if IsSpace(s[|s| - 1]) || IsControl(s[|s| - 1]) then [] else [s[|s| - 1]])
  }

  lemma {:induction false} VisibleConcat(s: string, t: string)
    ensures Visible(s + t) == Visible(s) + Visible(t)
    decreases t
  {
    if t == [] {
      assert s + t == s;
    } else {
      var front := t[..|t| - 1];
      VisibleConcat(s, front);
      assert (s + t)[..|s + t| - 1] == s + front && (s + t)[|s + t| - 1] == t[|t| - 1];
    }
  }

  lemma {:induction false} VisibleTrimRight(s: string)
    ensures Visible(TrimRight(s)) == Visible(s) && |TrimRight(s)| <= |s|
  {
    if s != [] && IsSpace(s[|s| - 1]) {
      VisibleTrimRight(s[..|s| - 1]);
    }
  }

  lemma {:induction false} VisibleTrimLeft(s: string)
    ensures Visible(TrimLeft(s)) == Visible(s) && |TrimLeft(s)| <= |s|
  {
    if s != [] && IsSpace(s[0]) {
      VisibleTrimLeft(s[1..]);
      VisibleConcat(s[..1], s[1..]);
      assert s == s[..1] + s[1..];
      assert Visible(s[..1]) == [];
    }
  }

  lemma VisibleTrim(s: string)
    ensures Visible(Trim(s)) == Visible(s) && |Trim(s)| <= |s|
  {
    VisibleTrimLeft(s);
    VisibleTrimRight(TrimLeft(s));
  }

  lemma {:induction false} VisibleFlatten(s: string)
    ensures Visible(Flatten(s)) == Visible(s) && |Flatten(s)| <= |s|
  {
    if s != [] {
      var front, c := s[..|s| - 1], s[|s| - 1];
      VisibleFlatten(front);
      VisibleOne(if c == '\n' || c == '\r' || c == '\t' then " " else if IsControl(c) then "" else [c]);
      VisibleConcat(Flatten(front), if c == '\n' || c == '\r' || c == '\t' then " " else if IsControl(c) then "" else [c]);
    }
  }

  lemma VisibleOne(s: string)
    requires |s| <= 1
    ensures Visible(s) == if s == [] || IsSpace(s[0]) || IsControl(s[0]) then [] else s
  {
  }

  lemma {:induction false} VisibleSqueeze(s: string)
    ensures Visible(Squeeze(s)) == Visible(s) && |Squeeze(s)| <= |s|
  {
    if s != [] {
      var front, c := s[..|s| - 1], s[|s| - 1];
      VisibleSqueeze(front);
      VisibleConcat(Squeeze(front), [c]);
      VisibleOne([c]);
    }
  }

  lemma VisiblePrefix(s: string, front: string, rest: string)
    requires s == front + rest
    ensures Visible(front) <= Visible(s)
  {
    VisibleConcat(front, rest);
  }

  lemma VisibleTake(s: string, n: nat)
    ensures Visible(Take(s, n)) <= Visible(s)
    ensures |s| <= n ==> Take(s, n) == s
  {
    if |s| > n {
      VisiblePrefix(s, s[..n], s[n..]);
    }
  }

  lemma VisibleBody(raw: string) returns (body: string)
    ensures Clamp(raw) == Trim(Take(body, MAX_NOTE_ENTRY)) && Visible(body) == Visible(raw) && |body| <= |raw|
  {
    body := Squeeze(Flatten(Trim(raw)));
    VisibleTrim(raw);
    VisibleFlatten(Trim(raw));
    VisibleSqueeze(Flatten(Trim(raw)));
  }

  /** Clamping adds no rune that shows and changes none of their order; only the cut at 500
      runes can lose one. */
  lemma VisibleKept(raw: string)
    ensures Visible(Clamp(raw)) <= Visible(raw)
    ensures |raw| <= 500 ==> Visible(Clamp(raw)) == Visible(raw)
  {
    var body := VisibleBody(raw);
    VisibleTake(body, MAX_NOTE_ENTRY);
    VisibleTrim(Take(body, MAX_NOTE_ENTRY));
  }

  /** A text that is clean but too long is cut after 500 runes. */
  lemma LongIsCut(s: string)
    requires |s| > 500 && Trimmed(s)
    requires forall i :: 0 <= i < |s| ==> !IsControl(s[i])
    requires forall i :: 0 < i < |s| ==> !(s[i - 1] == ' ' && s[i] == ' ')
    ensures Clamp(s) == TrimRight(s[..500])
  {
    FlattenId(s);
    SqueezeId(s);
    assert TrimLeft(s[..500]) == s[..500];
  }

  // ----- what it makes of white space -----

  predicate Blank(s: string) {
    forall i :: 0 <= i < |s| ==> IsSpace(s[i])
  }

  lemma {:induction false} TrimLeftBlank(s: string, t: string)
    requires Blank(s)
    ensures TrimLeft(s + t) == TrimLeft(t)
    decreases s
  {
    if s == [] {
      assert s + t == t;
    } else {
      TrimLeftBlank(s[1..], t);
      assert (s + t)[1..] == s[1..] + t;
    }
  }

  lemma {:induction false} TrimRightBlank(s: string, t: string)
    requires Blank(t)
    ensures TrimRight(s + t) == TrimRight(s)
    decreases t
  {
    if t == [] {
      assert s + t == s;
    } else {
      TrimRightBlank(s, t[..|t| - 1]);
      assert (s + t)[..|s + t| - 1] == s + t[..|t| - 1];
    }
  }

  lemma {:induction false} TrimLeftConcat(s: string, t: string)
    requires !Blank(s)
    ensures TrimLeft(s + t) == TrimLeft(s) + t && TrimLeft(s) != []
    decreases s
  {
    if IsSpace(s[0]) {
      assert !Blank(s[1..]) by {
        var i :| 0 <= i < |s| && !IsSpace(s[i]);
        assert s[1..][i - 1] == s[i];
      }
      TrimLeftConcat(s[1..], t);
      assert (s + t)[1..] == s[1..] + t;
    }
  }

  lemma {:induction false} TrimRightConcat(s: string, t: string)
    requires !Blank(t)
    ensures TrimRight(s + t) == s + TrimRight(t) && TrimRight(t) != []
    decreases t
  {
    if IsSpace(t[|t| - 1]) {
      var front := t[..|t| - 1];
      assert !Blank(front) by {
        var i :| 0 <= i < |t| && !IsSpace(t[i]);
        assert front[i] == t[i];
      }
      TrimRightConcat(s, front);
      assert (s + t)[..|s + t| - 1] == s + front;
    }
  }

  /** What trimming makes of white space w between s and t. */
  lemma TrimAround(s: string, w: string, t: string)
    requires Blank(w)
    ensures Trim(s + w + t) ==
            if Blank(s) then Trim(t) else if Blank(t) then TrimRight(TrimLeft(s)) else TrimLeft(s) + w + TrimRight(t)
  {
    assert s + w + t == s + (w + t) == (s + w) + t;
    if Blank(s) {
      TrimLeftBlank(s + w, t);
    } else {
      TrimLeftConcat(s, w + t);
      var left := TrimLeft(s);
      assert left + (w + t) == (left + w) + t;
      if Blank(t) {
        TrimRightBlank(left, w + t);
      } else {
        TrimRightConcat(left + w, t);
      }
    }
  }

  lemma SameFlat(s: string, v: string, w: string, t: string)
    requires Flatten(v) == Flatten(w)
    ensures Flatten(s + v + t) == Flatten(s + w + t)
  {
    FlattenConcat(s + v, t);
    FlattenConcat(s, v);
    FlattenConcat(s + w, t);
    FlattenConcat(s, w);
  }

  /** A line break or a tab counts as a space. */
  lemma BreakIsSpace(s: string, c: char, t: string)
    requires c == '\n' || c == '\r' || c == '\t'
    ensures Clamp(s + [c] + t) == Clamp(s + [' '] + t)
  {
    TrimAround(s, [c], t);
    TrimAround(s, [' '], t);
    FlattenOne(c);
    FlattenOne(' ');
    SameFlat(TrimLeft(s), [c], [' '], TrimRight(t));
  }

  lemma FlattenOne(c: char)
    ensures Flatten([c]) == if c == '\n' || c == '\r' || c == '\t' then " " else if IsControl(c) then "" else [c]
  {
    assert [c][..0] == [];
  }

  lemma {:induction false} SqueezeTwo(s: string, t: string)
    ensures Squeeze(s + "  " + t) == Squeeze(s + " " + t)
    decreases t
  {
    if t == [] {
      assert s + "  " + t == (s + " ") + [' '] && s + " " + t == s + [' '];
      SqueezeStep(s, ' ');
      SqueezeStep(s + " ", ' ');
    } else {
      var front, c := t[..|t| - 1], t[|t| - 1];
      SqueezeTwo(s, front);
      assert s + "  " + t == (s + "  " + front) + [c] && s + " " + t == (s + " " + front) + [c];
      SqueezeStep(s + "  " + front, c);
      SqueezeStep(s + " " + front, c);
    }
  }

  lemma FlattenSpaces(s: string, w: string, t: string)
    requires Flatten(w) == w
    ensures Flatten(s + w + t) == Flatten(s) + w + Flatten(t)
  {
    FlattenConcat(s + w, t);
    FlattenConcat(s, w);
  }

  lemma SpacedAlike(s: string, t: string)
    ensures Squeeze(Flatten(s + "  " + t)) == Squeeze(Flatten(s + " " + t))
  {
    FlattenId("  ");
    FlattenId(" ");
    FlattenSpaces(s, "  ", t);
    FlattenSpaces(s, " ", t);
    SqueezeTwo(Flatten(s), Flatten(t));
  }

  /** Two spaces count as one. */
  lemma SpacesCollapse(s: string, t: string)
    ensures Clamp(s + "  " + t) == Clamp(s + " " + t)
  {
    TrimAround(s, "  ", t);
    TrimAround(s, " ", t);
    SpacedAlike(TrimLeft(s), TrimRight(t));
  }

  lemma TrimmedConcat(s: string, w: string, t: string)
    requires s != [] && t != [] && Trimmed(s) && Trimmed(t)
    ensures Trimmed(s + w + t)
  {
    var all := s + w + t;
    assert all[0] == s[0] && all[|all| - 1] == t[|t| - 1];
  }

  lemma SameFlatSameClamp(x: string, y: string)
    requires Trimmed(x) && Trimmed(y) && Flatten(x) == Flatten(y)
    ensures Clamp(x) == Clamp(y)
  {
    assert Trim(x) == x && Trim(y) == y;
  }

  /** Any other control character between two runes that are no white space goes. */
  lemma ControlGoes(s: string, c: char, t: string)
    requires IsControl(c) && c != '\n' && c != '\r' && c != '\t'
    requires s != [] && t != [] && Trimmed(s) && Trimmed(t)
    ensures Clamp(s + [c] + t) == Clamp(s + t)
  {
    TrimmedConcat(s, [c], t);
    TrimmedConcat(s, [], t);
    FlattenOne(c);
    SameFlat(s, [c], [], t);
    SameFlatSameClamp(s + [c] + t, s + [] + t);
    assert s + [] + t == s + t;
  }
}
