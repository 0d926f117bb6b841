/** The bounded, deduplicated note log: ClampNote and mergeNoteLog. Strings are
    sequences of code points. */
module Notes {
  import opened Unicode

  const MAX_NOTE_ENTRY := 500
  const MAX_NOTE_LOG := 4000

  function TrimLeft(s: string): string {
    if s != [] && IsSpace(s[0]) then TrimLeft(s[1..]) else s
  }

  function TrimRight(s: string): string {
    if s != [] && IsSpace(s[|s| - 1]) then TrimRight(s[..|s| - 1]) else s
  }

  function Trim(s: string): string {
    TrimRight(TrimLeft(s))
  }

  predicate Trimmed(s: string) {
    s != [] ==> !IsSpace(s[0]) && !IsSpace(s[|s| - 1])
  }

  // ----- one note -----

  /** Line breaks and tabs become spaces; other control characters go. */
  function Flatten(s: string): string {
    if s == [] then []
    else
      var c := s[|s| - 1];
      Flatten(s[..|s| - 1]) +
      (if c == '\n' || c == '\r' || c == '\t' then [' '] else if IsControl(c) then [] else [c])
  }

  /** Runs of plain spaces shrink to one; leading ones go. */
  function Squeeze(s: string): string {
    if s == [] then []
    else
      var c, rest := s[|s| - 1], Squeeze(s[..|s| - 1]);
      if c == ' ' && (rest == [] || rest[|rest| - 1] == ' ') then rest else rest + [c]
  }

  function Take(s: string, n: nat): string {
    if |s| <= n then s else s[..n]
  }

  function Clamp(raw: string): string {
    Trim(Take(Squeeze(Flatten(Trim(raw))), MAX_NOTE_ENTRY))
  }

  lemma SqueezeStep(s: string, c: char)
    ensures Squeeze(s + [c]) ==
            if c == ' ' && (Squeeze(s) == [] || Squeeze(s)[|Squeeze(s)| - 1] == ' ')
            then Squeeze(s) else Squeeze(s) + [c]
  {
  }

  lemma {:induction false} SqueezePrefix(s: string, t: string)
    ensures Squeeze(s) <= Squeeze(s + t)
    decreases t
  {
    if t == [] {
      assert s + t == s;
    } else {
      var front, c := t[..|t| - 1], t[|t| - 1];
      SqueezePrefix(s, front);
      assert s + t == (s + front) + [c];
      SqueezeStep(s + front, c);
    }
  }

  lemma {:induction false} FlattenConcat(s: string, t: string)
    ensures Flatten(s + t) == Flatten(s) + Flatten(t)
    decreases t
  {
    if t == [] {
      assert s + t == s;
    } else {
      var front := t[..|t| - 1];
      FlattenConcat(s, front);
      assert (s + t)[..|s + t| - 1] == s + front && (s + t)[|s + t| - 1] == t[|t| - 1];
    }
  }

  /** What is left of the first k runes of s. */
  function Pass(s: string, k: nat): string
    requires k <= |s|
  {
    Squeeze(Flatten(s[..k]))
  }

  function AsSpace(r: char): char {
    if r == '\n' || r == '\r' || r == '\t' then ' ' else r
  }

  lemma PassStep(s: string, k: nat)
    requires k < |s|
    ensures var r, b := AsSpace(s[k]), Pass(s, k);
            Pass(s, k + 1) == if IsControl(r) || (r == ' ' && (b == [] || b[|b| - 1] == ' ')) then b else b + [r]
  {
    assert s[..k + 1][..k] == s[..k];
    var r := AsSpace(s[k]);
    if IsControl(r) {
      assert Flatten(s[..k + 1]) == Flatten(s[..k]) + [] == Flatten(s[..k]);
    } else {
      assert Flatten(s[..k + 1]) == Flatten(s[..k]) + [r];
      SqueezeStep(Flatten(s[..k]), r);
    }
  }

  /** Once the bound is reached, later runes cannot matter. */
  lemma CutOff(s: string, k: nat)
    requires k <= |s|
    requires k == |s| || |Pass(s, k)| == MAX_NOTE_ENTRY
    requires |Pass(s, k)| <= MAX_NOTE_ENTRY
    ensures Take(Squeeze(Flatten(s)), MAX_NOTE_ENTRY) == Pass(s, k)
  {
    assert s == s[..k] + s[k..];
    FlattenConcat(s[..k], s[k..]);
    SqueezePrefix(Flatten(s[..k]), Flatten(s[k..]));
    if k == |s| {
      assert s[..k] == s;
    }
  }

  /** One pass with a counter and a flag does the flattening, squeezing and cutting. */
  method ClampNote(raw: string) returns (out: string)
    ensures out == Clamp(raw)
  {
    var s := Trim(raw);
    if s == [] {
      return [];
    }
    var b: string := [];
    var n := 0;
    var prevSpace := false;
    var k := 0;
    while k < |s|
      invariant k <= |s| && n == |b| <= MAX_NOTE_ENTRY
      invariant b == Pass(s, k)
      invariant prevSpace <==> b != [] && b[|b| - 1] == ' '
    {
      PassStep(s, k);
      var r := s[k];
      if r == '\n' || r == '\r' || r == '\t' {
        r := ' ';
      }
      if !IsControl(r) && !(r == ' ' && (prevSpace || n == 0)) {
        if n >= MAX_NOTE_ENTRY {
          break;
        }
        prevSpace := r == ' ';
        b := b + [r];
        n := n + 1;
      }
      k := k + 1;
    }
    CutOff(s, k);
    out := Trim(b);
  }

  /** What a clamped note looks like. */
  ghost predicate Clean(s: string) {
    && |s| <= MAX_NOTE_ENTRY
    && Trimmed(s)
    && (forall i :: 0 <= i < |s| ==> !IsControl(s[i]))
    && (forall i :: 0 < i < |s| ==> !(s[i - 1] == ' ' && s[i] == ' '))
  }

  lemma {:induction false} TrimRightSlice(s: string) returns (j: nat)
    ensures j <= |s| && TrimRight(s) == s[..j]
    ensures j > 0 ==> !IsSpace(s[j - 1])
  {
    if s != [] && IsSpace(s[|s| - 1]) {
      j := TrimRightSlice(s[..|s| - 1]);
      assert s[..|s| - 1][..j] == s[..j];
    } else {
      j := |s|;
      assert s == s[..j];
    }
  }

  lemma {:induction false} TrimLeftSlice(s: string) returns (i: nat)
    ensures i <= |s| && TrimLeft(s) == s[i..]
    ensures i < |s| ==> !IsSpace(s[i])
  {
    if s != [] && IsSpace(s[0]) {
      var rest := TrimLeftSlice(s[1..]);
      i := rest + 1;
      assert s[1..][rest..] == s[i..];
    } else {
      i := 0;
      assert s == s[i..];
    }
  }

  lemma TrimIsSlice(s: string) returns (i: nat, j: nat)
    ensures i <= j <= |s| && Trim(s) == s[i..j]
    ensures Trimmed(Trim(s))
  {
    i := TrimLeftSlice(s);
    var m := TrimRightSlice(s[i..]);
    j := i + m;
    assert s[i..][..m] == s[i..j];
  }

  lemma {:induction false} FlattenFree(s: string)
    ensures forall i :: 0 <= i < |Flatten(s)| ==> !IsControl(Flatten(s)[i])
  {
    if s != [] {
      FlattenFree(s[..|s| - 1]);
    }
  }

  lemma {:induction false} SqueezeSpaced(s: string)
    requires forall i :: 0 <= i < |s| ==> !IsControl(s[i])
    ensures forall i :: 0 <= i < |Squeeze(s)| ==> !IsControl(Squeeze(s)[i])
    ensures forall i :: 0 < i < |Squeeze(s)| ==> !(Squeeze(s)[i - 1] == ' ' && Squeeze(s)[i] == ' ')
  {
    if s != [] {
      SqueezeSpaced(s[..|s| - 1]);
    }
  }

  lemma ClampIsClean(raw: string)
    ensures Clean(Clamp(raw))
  {
    var flat := Flatten(Trim(raw));
    FlattenFree(Trim(raw));
    SqueezeSpaced(flat);
    var cut := Take(Squeeze(flat), MAX_NOTE_ENTRY);
    var i, j := TrimIsSlice(cut);
  }

  lemma {:induction false} FlattenId(s: string)
    requires forall i :: 0 <= i < |s| ==> !IsControl(s[i])
    ensures Flatten(s) == s
  {
    if s != [] {
      FlattenId(s[..|s| - 1]);
      assert s == s[..|s| - 1] + [s[|s| - 1]];
    }
  }

  lemma {:induction false} SqueezeId(s: string)
    requires s != [] ==> s[0] != ' '
    requires forall i :: 0 < i < |s| ==> !(s[i - 1] == ' ' && s[i] == ' ')
    ensures Squeeze(s) == s
  {
    if s != [] {
      SqueezeId(s[..|s| - 1]);
      assert s == s[..|s| - 1] + [s[|s| - 1]];
    }
  }

  lemma CleanIsFixed(s: string)
    requires Clean(s)
    ensures Clamp(s) == s
  {
    FlattenId(s);
    SqueezeId(s);
  }

  /** Clamping twice is clamping once. */
  lemma ClampIdempotent(raw: string)
    ensures Clamp(Clamp(raw)) == Clamp(raw)
  {
    ClampIsClean(raw);
    CleanIsFixed(Clamp(raw));
  }

  // ----- the log -----

  function Split(s: string): (lines: seq<string>)
    ensures lines != []
  {
    if s == [] then [[]]
    else
      var c, lines := s[|s| - 1], Split(s[..|s| - 1]);
      if c == '\n' then lines + [[]]
      else lines[..|lines| - 1] + [lines[|lines| - 1] + [c]]
  }

  function Join(parts: seq<string>): string {
    if parts == [] then []
    else if |parts| == 1 then parts[0]
    else Join(parts[..|parts| - 1]) + ['\n'] + parts[|parts| - 1]
  }

  function LinesOf(chunks: seq<string>): seq<string> {
    if chunks == [] then [] else LinesOf(chunks[..|chunks| - 1]) + Split(chunks[|chunks| - 1])
  }

  /** The clamped non-empty lines, each at its first occurrence. */
  function Dedupe(lines: seq<string>): seq<string> {
    if lines == [] then []
    else
      var parts, line := Dedupe(lines[..|lines| - 1]), Clamp(lines[|lines| - 1]);
      if line == [] || line in parts then parts else parts + [line]
  }

  /** The longest prefix whose text stays within the bound. */
  function Fit(parts: seq<string>): (kept: seq<string>)
    ensures |kept| <= |parts|
  {
    if parts == [] then []
    else
      var front := parts[..|parts| - 1];
      var kept := Fit(front);
      if kept == front && |Join(parts)| <= MAX_NOTE_LOG then parts else kept
  }

  function Log(chunks: seq<string>): string {
    Join(Fit(Dedupe(LinesOf(chunks))))
  }

  lemma {:induction false} DedupePrefix(s: seq<string>, t: seq<string>)
    ensures Dedupe(s) <= Dedupe(s + t)
    decreases t
  {
    if t == [] {
      assert s + t == s;
    } else {
      DedupePrefix(s, t[..|t| - 1]);
      assert (s + t)[..|s + t| - 1] == s + t[..|t| - 1];
    }
  }

  lemma DedupeStep(s: seq<string>, line: string)
    ensures Dedupe(s + [line]) ==
            if Clamp(line) == [] || Clamp(line) in Dedupe(s) then Dedupe(s) else Dedupe(s) + [Clamp(line)]
  {
  }

  /** Once a part does not fit, nothing after it is taken. */
  lemma {:induction false} FitStops(parts: seq<string>, i: nat)
    requires i <= |parts| && Fit(parts[..i]) != parts[..i]
    ensures Fit(parts) == Fit(parts[..i])
    decreases parts
  {
    if i == |parts| {
      assert parts[..i] == parts;
    } else {
      var front := parts[..|parts| - 1];
      assert front[..i] == parts[..i];
      FitStops(front, i);
    }
  }

  lemma DedupeNext(before: seq<string>, lines: seq<string>, l: nat)
    requires l < |lines|
    ensures var parts, line := Dedupe(before + lines[..l]), Clamp(lines[l]);
            Dedupe(before + lines[..l + 1]) == if line == [] || line in parts then parts else parts + [line]
  {
    DedupeStep(before + lines[..l], lines[l]);
    assert before + lines[..l + 1] == before + lines[..l] + [lines[l]];
  }

  /** The inner loop: adds the new lines of one chunk. */
  method AddLines(ghost before: seq<string>, lines: seq<string>, had: seq<string>, sawn: set<string>)
    returns (parts: seq<string>, seen: set<string>)
    requires had == Dedupe(before) && forall p :: p in sawn <==> p in had
    ensures parts == Dedupe(before + lines) && forall p :: p in seen <==> p in parts
  {
    parts, seen := had, sawn;
    assert before + lines[..0] == before;
    for l := 0 to |lines|
      invariant parts == Dedupe(before + lines[..l])
      invariant forall p :: p in seen <==> p in parts
    {
      DedupeNext(before, lines, l);
      var line := ClampNote(lines[l]);
      if line == [] {
        continue;
      }
      if line in seen {
        continue;
      }
      seen := seen + {line};
      parts := parts + [line];
    }
    assert lines[..|lines|] == lines;
  }

  method CollectLines(chunks: seq<string>) returns (parts: seq<string>)
    ensures parts == Dedupe(LinesOf(chunks))
  {
    var seen: set<string> := {};
    parts := [];
    for c := 0 to |chunks|
      invariant parts == Dedupe(LinesOf(chunks[..c]))
      invariant forall p :: p in seen <==> p in parts
    {
      var lines := Split(chunks[c]);
      assert chunks[..c + 1][..c] == chunks[..c];
      parts, seen := AddLines(LinesOf(chunks[..c]), lines, parts, seen);
    }
    assert chunks[..|chunks|] == chunks;
  }

  lemma JoinStep(parts: seq<string>, i: nat)
    requires i < |parts|
    ensures Join(parts[..i + 1]) == if i == 0 then parts[0] else Join(parts[..i]) + ['\n'] + parts[i]
    ensures Fit(parts[..i]) == parts[..i] ==>
              Fit(parts[..i + 1]) == if |Join(parts[..i + 1])| <= MAX_NOTE_LOG then parts[..i + 1] else parts[..i]
  {
    assert parts[..i + 1][..i] == parts[..i];
  }

  /** Clamps and deduplicates the lines of all chunks, then writes them out until
      the next one would exceed the bound. */
  method MergeNoteLog(chunks: seq<string>) returns (log: string)
    ensures log == Log(chunks)
  {
    var parts := CollectLines(chunks);
    log := [];
    var n := 0;
    for i := 0 to |parts|
      invariant Fit(parts[..i]) == parts[..i]
      invariant log == Join(parts[..i]) && n == |log|
    {
      JoinStep(parts, i);
      var extra := |parts[i]|;
      if i > 0 {
        extra := extra + 1;
      }
      if n + extra > MAX_NOTE_LOG {
        FitStops(parts, i + 1);
        return;
      }
      if i > 0 {
        log := log + ['\n'];
      }
      log := log + parts[i];
      n := n + extra;
    }
    assert parts[..|parts|] == parts;
  }

  method MergeReviewNote(existing: string, added: string) returns (note: string)
    ensures note == Log([existing, added])
    ensures Settled(existing) ==> existing <= note
    ensures Settled(note)
  {
    LogSettled([existing, added]);
    if Settled(existing) {
      MergeExtends(existing, added);
    }
    note := MergeNoteLog([existing, added]);
  }

  // ----- properties of the log -----

  lemma {:induction false} FitPrefix(parts: seq<string>)
    ensures Fit(parts) <= parts
    ensures |Join(Fit(parts))| <= MAX_NOTE_LOG
  {
    if parts != [] {
      FitPrefix(parts[..|parts| - 1]);
    }
  }

  /** Every prefix that fits is kept. */
  lemma {:induction false} FitMaximal(kept: seq<string>, parts: seq<string>)
    requires kept <= parts && |Join(kept)| <= MAX_NOTE_LOG
    ensures kept <= Fit(parts)
    decreases parts
  {
    if parts == [] {
    } else if kept == parts {
      var front := parts[..|parts| - 1];
      JoinGrows(front, parts);
      FitMaximal(front, front);
      FitPrefix(front);
    } else {
      var front := parts[..|parts| - 1];
      assert kept <= front;
      FitMaximal(kept, front);
      FitPrefix(front);
    }
  }

  lemma {:induction false} JoinGrows(kept: seq<string>, parts: seq<string>)
    requires kept <= parts
    ensures Join(kept) <= Join(parts)
    decreases parts
  {
    if kept != parts {
      var front := parts[..|parts| - 1];
      assert kept <= front;
      JoinGrows(kept, front);
      if |parts| == 1 {
        assert kept == [];
      }
    }
  }

  /** Distinct, non-empty, clamped lines. */
  ghost predicate LogLines(parts: seq<string>) {
    && (forall i, j :: 0 <= i < j < |parts| ==> parts[i] != parts[j])
    && (forall i :: 0 <= i < |parts| ==> parts[i] != [] && Clean(parts[i]))
  }

  lemma {:induction false} DedupeLines(lines: seq<string>)
    ensures LogLines(Dedupe(lines))
  {
    if lines != [] {
      DedupeLines(lines[..|lines| - 1]);
      ClampIsClean(lines[|lines| - 1]);
    }
  }

  /** l is what one of the lines becomes. */
  ghost predicate Offered(lines: seq<string>, l: string) {
    l != [] && exists i :: 0 <= i < |lines| && Clamp(lines[i]) == l
  }

  lemma OfferedNext(front: seq<string>, last: string, l: string)
    ensures Offered(front + [last], l) <==> Offered(front, l) || (l != [] && Clamp(last) == l)
  {
    var lines := front + [last];
    assert Clamp(lines[|front|]) == Clamp(last);
    if i :| 0 <= i < |front| && Clamp(front[i]) == l {
      assert Clamp(lines[i]) == l;
    }
  }

  /** Deduplication loses and invents no line. */
  lemma {:induction false} DedupeKeeps(lines: seq<string>, l: string)
    ensures l in Dedupe(lines) <==> Offered(lines, l)
  {
    if lines != [] {
      var front, last := lines[..|lines| - 1], lines[|lines| - 1];
      DedupeKeeps(front, l);
      OfferedNext(front, last, l);
      assert lines == front + [last];
    }
  }

  /** The log is at most 4000 runes of distinct, non-empty, clamped lines. They are all
      the lines offered, or as many of the first ones as fit: one more would not. */
  lemma LogShape(chunks: seq<string>) returns (all: seq<string>, parts: seq<string>)
    ensures LogLines(all)
    ensures forall l :: l in all <==> Offered(LinesOf(chunks), l)
    ensures Log(chunks) == Join(parts) && |Join(parts)| <= MAX_NOTE_LOG && parts <= all
    ensures parts == all || |Join(all[..|parts| + 1])| > MAX_NOTE_LOG
  {
    all := Dedupe(LinesOf(chunks));
    parts := Fit(all);
    FitPrefix(all);
    DedupeLines(LinesOf(chunks));
    forall l
      ensures l in all <==> Offered(LinesOf(chunks), l)
    {
      DedupeKeeps(LinesOf(chunks), l);
    }
    if parts != all && |Join(all[..|parts| + 1])| <= MAX_NOTE_LOG {
      FitMaximal(all[..|parts| + 1], all);
    }
  }

  lemma {:induction false} SplitLine(s: string, line: string)
    requires '\n' !in line
    ensures Split(s + ['\n'] + line) == Split(s) + [line]
    decreases line
  {
    if line == [] {
      assert (s + ['\n'] + line)[..|s|] == s;
      assert s + ['\n'] + line == s + ['\n'];
    } else {
      var front := line[..|line| - 1];
      SplitLine(s, front);
      assert (s + ['\n'] + line)[..|s| + 1 + |front|] == s + ['\n'] + front;
      assert front + [line[|line| - 1]] == line;
    }
  }

  lemma {:induction false} SplitOneLine(line: string)
    requires '\n' !in line
    ensures Split(line) == [line]
  {
    if line != [] {
      SplitOneLine(line[..|line| - 1]);
      assert line[..|line| - 1] + [line[|line| - 1]] == line;
    }
  }

  /** Splitting undoes joining. */
  lemma {:induction false} SplitJoin(parts: seq<string>)
    requires parts != [] && forall i :: 0 <= i < |parts| ==> '\n' !in parts[i]
    ensures Split(Join(parts)) == parts
  {
    if |parts| == 1 {
      SplitOneLine(parts[0]);
    } else {
      var front, last := parts[..|parts| - 1], parts[|parts| - 1];
      SplitJoin(front);
      SplitLine(Join(front), last);
      assert front + [last] == parts;
    }
  }

  lemma {:induction false} DedupeId(parts: seq<string>)
    requires LogLines(parts)
    ensures Dedupe(parts) == parts
  {
    if parts != [] {
      var front, last := parts[..|parts| - 1], parts[|parts| - 1];
      DedupeId(front);
      CleanIsFixed(last);
      assert parts == front + [last];
      assert last !in front;
    }
  }

  /** A note that merging leaves alone. */
  ghost predicate Settled(note: string) {
    Log([note]) == note
  }

  lemma LinesOfOne(s: string)
    ensures LinesOf([s]) == Split(s)
  {
  }

  lemma LinesOfTwo(s: string, t: string)
    ensures LinesOf([s, t]) == Split(s) + Split(t)
  {
    LinesOfOne(s);
    assert [s, t][..1] == [s];
  }

  lemma PartsSettled(parts: seq<string>)
    requires LogLines(parts)
    requires |Join(parts)| <= MAX_NOTE_LOG
    ensures Settled(Join(parts))
  {
    LinesOfOne(Join(parts));
    if parts == [] {
      assert Clamp([]) == [];
      assert Dedupe([[]]) == [];
    } else {
      NoBreaks(parts);
      SplitJoin(parts);
      DedupeId(parts);
      FitWhole(parts);
    }
  }

  lemma NoBreaks(parts: seq<string>)
    requires LogLines(parts)
    ensures forall i :: 0 <= i < |parts| ==> '\n' !in parts[i]
  {
  }

  lemma FitWhole(parts: seq<string>)
    requires |Join(parts)| <= MAX_NOTE_LOG
    ensures Fit(parts) == parts
  {
  }

  /** The log is a fixed point of merging. */
  lemma LogSettled(chunks: seq<string>)
    ensures Settled(Log(chunks))
  {
    var all, parts := LogShape(chunks);
    PartsSettled(parts);
  }

  /** So is a single clamped note. */
  lemma ClampSettled(raw: string)
    ensures Settled(Clamp(raw))
  {
    ClampIsClean(raw);
    if Clamp(raw) == [] {
      PartsSettled([]);
    } else {
      PartsSettled([Clamp(raw)]);
    }
  }

  /** Merging into a settled note only ever appends to it. */
  lemma MergeExtends(existing: string, added: string)
    requires Settled(existing)
    ensures existing <= Log([existing, added])
    ensures Settled(Log([existing, added]))
  {
    var before, after := Dedupe(Split(existing)), Dedupe(Split(existing) + Split(added));
    LinesOfOne(existing);
    LinesOfTwo(existing, added);
    DedupePrefix(Split(existing), Split(added));
    FitPrefix(before);
    assert Fit(before) <= after;
    FitMaximal(Fit(before), after);
    JoinGrows(Fit(before), Fit(after));
    LogSettled([existing, added]);
  }
}
