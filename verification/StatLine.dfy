/** The parser of `/proc/<pid>/stat`, and the kernel's printing of that line. */
module StatLine {
  import opened Options
  import opened Decimal
  import opened Widths


  datatype ProcessState = Running | Sleeping | DiskWait | Zombie | Stopped | Unknown

  datatype ProcStat = ProcStat(state: ProcessState, utime: nat, stime: nat, numThreads: nat)

  datatype Malformed = NoClosingParen | TooFewFields(count: nat) | BadUtime | BadStime | BadNumThreads

  /** The parser returns a result or an error, or panics on a slice out of bounds. */
  datatype Outcome = Parsed(stat: ProcStat) | Failed(error: Malformed) | Panicked

  /** `rfind(')')`. */
  function LastParen(s: string): (r: Option<nat>)
    ensures r == None <==> ')' !in s
    ensures r.Some? ==> r.value < |s| && s[r.value] == ')' && ')' !in s[r.value + 1..]
  {
    if s == [] then None
    else if s[|s| - 1] == ')' then Some(|s| - 1)
    else LastParen(s[..|s| - 1])
  }

  /** `char::is_whitespace`. */
  predicate IsWhite(c: char) {
    var n := c as int;
    || 0x09 <= n <= 0x0d || n in {0x20, 0x85, 0xa0, 0x1680}
    || 0x2000 <= n <= 0x200a || n in {0x2028, 0x2029, 0x202f, 0x205f, 0x3000}
  }

  function Word(s: string): (w: string)
    ensures w <= s
    ensures s != [] && !IsWhite(s[0]) ==> w != []
  {
    if s == [] || IsWhite(s[0]) then [] else [s[0]] + Word(s[1..])
  }

  /** `split_whitespace`. */
  function Fields(s: string): seq<string>
    decreases |s|
  {
    if s == [] then []
    else if IsWhite(s[0]) then Fields(s[1..])
    else
      var w := Word(s);
      [w] + Fields(s[|w|..])
  }

  function StateOf(field: string): ProcessState {
    if field == [] then Unknown
    else match field[0]
         case 'R' => Running
         case 'S' => Sleeping
         case 'D' => DiskWait
         case 'Z' => Zombie
         case 'T' => Stopped
         case 't' => Stopped
         case _ => Unknown
  }

  function ParseFields(fields: seq<string>): Outcome {
    if |fields| < 20 then Failed(TooFewFields(|fields|))
    else match Parse(fields[11], U64)
         case None => Failed(BadUtime)
         case Some(utime) =>
           match Parse(fields[12], U64)
           case None => Failed(BadStime)
           case Some(stime) =>
             match Parse(fields[17], U32)
             case None => Failed(BadNumThreads)
             case Some(threads) => Parsed(ProcStat(StateOf(fields[0]), utime, stime, threads))
  }

  /** The state is that of the field's first letter. */
  lemma StateLetters(field: string)
    ensures StateOf(field) == Running <==> "R" <= field
    ensures StateOf(field) == Sleeping <==> "S" <= field
    ensures StateOf(field) == DiskWait <==> "D" <= field
    ensures StateOf(field) == Zombie <==> "Z" <= field
    ensures StateOf(field) == Stopped <==> "T" <= field || "t" <= field
  {}

  /** Exactly which fields are read and what each error means: the counters are fields 11 and
      12, of 64 bits, and 17, of 32 bits, counted from 0 after the command name. */
  lemma ParseFieldsIff(fields: seq<string>)
    ensures var r := ParseFields(fields);
            && (r == Failed(TooFewFields(|fields|)) <==> |fields| < 20)
            && (r == Failed(BadUtime) <==> |fields| >= 20 && !SpellsBelow(fields[11], 0x1_0000_0000_0000_0000))
            && (r == Failed(BadStime) <==>
                  && |fields| >= 20 && SpellsBelow(fields[11], 0x1_0000_0000_0000_0000)
                  && !SpellsBelow(fields[12], 0x1_0000_0000_0000_0000))
            && (r == Failed(BadNumThreads) <==>
                  && |fields| >= 20 && SpellsBelow(fields[11], 0x1_0000_0000_0000_0000)
                  && SpellsBelow(fields[12], 0x1_0000_0000_0000_0000) && !SpellsBelow(fields[17], 0x1_0000_0000))
            && (r.Parsed? ==>
                  && Spells(fields[11], r.stat.utime) && Spells(fields[12], r.stat.stime)
                  && Spells(fields[17], r.stat.numThreads) && r.stat.state == StateOf(fields[0]))
  {
    if |fields| >= 20 {
      SpellsIff(fields[11], U64);
      SpellsIff(fields[12], U64);
      SpellsIff(fields[17], U32);
    }
  }

  /** The text is a spelling of some number below the limit. */
  ghost predicate SpellsBelow(s: string, limit: nat) {
    exists n: nat :: n < limit && Spells(s, n)
  }

  lemma SpellsIff(s: string, limit: nat)
    requires limit > 0
    ensures Parse(s, limit).Some? <==> SpellsBelow(s, limit)
    ensures Parse(s, limit).Some? ==> Spells(s, Parse(s, limit).value)
  {
    if Parse(s, limit).Some? {
      ParseIff(s, limit, Parse(s, limit).value);
    }
    if SpellsBelow(s, limit) {
      var n: nat :| n < limit && Spells(s, n);
      ParseIff(s, limit, n);
    }
  }

  /** In ASCII, white space is the blank and the control characters 9 to 13. */
  lemma AsciiWhite(c: char)
    requires c as int < 0x80
    ensures IsWhite(c) <==> c == ' ' || 9 <= c as int <= 13
  {}

  // ----- byte offsets

  /** How many bytes a character takes in UTF-8. */
  function Width(c: char): (w: nat)
    ensures 1 <= w <= 4
  {
    var n := c as int;
    if n < 0x80 then 1 else if n < 0x800 then 2 else if n < 0x1_0000 then 3 else 4
  }

  function Bytes(s: string): nat {
    if s == [] then 0 else Width(s[0]) + Bytes(s[1..])
  }

  /** `&s[b..]` for a byte offset `b`, or None where it panics: beyond the end, or inside a
      character. */
  function SliceFrom(s: string, b: nat): Option<string> {
    if b == 0 then Some(s)
    else if s == [] || b < Width(s[0]) then None
    else SliceFrom(s[1..], b - Width(s[0]))
  }

  /** Slicing gives the suffix that starts at that byte, if a character does. */
  lemma SliceIff(s: string, b: nat, suffix: string)
    ensures SliceFrom(s, b) == Some(suffix) <==> exists i: nat :: i <= |s| && Bytes(s[..i]) == b && suffix == s[i..]
  {
    if i: nat :| i <= |s| && Bytes(s[..i]) == b && suffix == s[i..] {
      SliceAfter(s, i, 0);
    }
    if SliceFrom(s, b) == Some(suffix) {
      var i := SliceStarts(s, b);
    }
  }

  lemma {:induction false} SliceStarts(s: string, b: nat) returns (i: nat)
    requires SliceFrom(s, b).Some?
    ensures i <= |s| && Bytes(s[..i]) == b && SliceFrom(s, b) == Some(s[i..])
    decreases |s|
  {
    if b == 0 {
      i := 0;
    } else {
      var j := SliceStarts(s[1..], b - Width(s[0]));
      i := j + 1;
      assert s[..i][1..] == s[1..][..j];
    }
  }

  lemma {:induction false} SliceAfter(s: string, i: nat, b: nat)
    requires i <= |s|
    ensures SliceFrom(s, Bytes(s[..i]) + b) == SliceFrom(s[i..], b)
    decreases i
  {
    if i == 0 {
      assert s[0..] == s;
    } else {
      SliceAfter(s[1..], i - 1, b);
      assert s[..i][1..] == s[1..][..i - 1] && s[1..][i - 1..] == s[i..];
    }
  }

  // ----- the parser

  function ParseStatContent(content: string): Outcome {
    match LastParen(content)
    case None => Failed(NoClosingParen)
    case Some(p) =>
      match SliceFrom(content, Bytes(content[..p]) + 2)
      case None => Panicked
      case Some(rest) => ParseFields(Fields(rest))
  }

  lemma SliceOne(s: string)
    ensures SliceFrom(s, 1) == if s == [] || s[0] as int >= 0x80 then None else Some(s[1..])
  {
    if s == [] {
    } else {
      assert Width(s[0]) == 1 <==> s[0] as int < 0x80;
      assert SliceFrom(s[1..], 0) == Some(s[1..]);
    }
  }

  lemma SliceTwo(tail: string)
    requires tail != [] && tail[0] == ')'
    ensures SliceFrom(tail, 2) == if |tail| == 1 || tail[1] as int >= 0x80 then None else Some(tail[2..])
  {
    var rest := tail[1..];
    SliceOne(rest);
    assert |tail| > 1 ==> rest[0] == tail[1] && rest[1..] == tail[2..];
  }

  /** Two bytes from a parenthesis on. */
  lemma SliceAfterParen(content: string, p: nat)
    requires p < |content| && content[p] == ')'
    ensures SliceFrom(content, Bytes(content[..p]) + 2)
         == if p + 1 == |content| || content[p + 1] as int >= 0x80 then None else Some(content[p + 2..])
  {
    SliceAfter(content, p, 2);
    var tail := content[p..];
    SliceTwo(tail);
    assert p + 1 < |content| ==> tail[1] == content[p + 1] && tail[2..] == content[p + 2..];
  }

  /** The last closing parenthesis is at `p`. */
  predicate ClosesAt(content: string, p: nat) {
    p < |content| && content[p] == ')' && ')' !in content[p + 1..]
  }

  lemma LastParenIs(content: string, p: nat)
    requires ClosesAt(content, p)
    ensures LastParen(content) == Some(p)
  {
    var q := LastParen(content).value;
    assert forall k | p < k < |content| :: content[k] == content[p + 1..][k - p - 1];
    assert forall k | q < k < |content| :: content[k] == content[q + 1..][k - q - 1];
  }

  /** The parser panics exactly on a text whose last closing parenthesis ends it or is
      followed by a character outside ASCII. */
  lemma PanicsIff(content: string)
    ensures ParseStatContent(content) == Panicked <==>
              exists p: nat :: ClosesAt(content, p) && (p + 1 == |content| || content[p + 1] as int >= 0x80)
  {
    if p: nat :| ClosesAt(content, p) && (p + 1 == |content| || content[p + 1] as int >= 0x80) {
      LastParenIs(content, p);
      SliceAfterParen(content, p);
    }
    match LastParen(content)
    case None =>
    case Some(p) =>
      assert ClosesAt(content, p);
      SliceAfterParen(content, p);
  }

  /** What is left of a text without its white space. */
  function Blackened(s: string): string {
    if s == [] then [] else (if IsWhite(s[0]) then [] else [s[0]]) + Blackened(s[1..])
  }

  function Concat(fields: seq<string>): string {
    if fields == [] then [] else fields[0] + Concat(fields[1..])
  }

  /** Splitting keeps everything but the white space, in order, and makes no empty fields. */
  lemma {:induction false} FieldsAreWords(s: string)
    ensures Concat(Fields(s)) == Blackened(s)
    ensures forall k | 0 <= k < |Fields(s)| ::
              Fields(s)[k] != [] && forall i | 0 <= i < |Fields(s)[k]| :: !IsWhite(Fields(s)[k][i])
    decreases |s|
  {
    if s == [] {
    } else if IsWhite(s[0]) {
      FieldsAreWords(s[1..]);
    } else {
      var w := Word(s);
      FieldsAreWords(s[|w|..]);
      WordIsBlack(s);
      BlackStays(w);
      BlackenedConcat(w, s[|w|..]);
      assert s == w + s[|w|..];
    }
  }

  lemma {:induction false} WordIsBlack(s: string)
    ensures forall i | 0 <= i < |Word(s)| :: !IsWhite(Word(s)[i])
  {
    if s == [] || IsWhite(s[0]) {
    } else {
      WordIsBlack(s[1..]);
    }
  }

  lemma BlackenedCons(c: char, t: string)
    ensures Blackened([c] + t) == (if IsWhite(c) then [] else [c]) + Blackened(t)
  {
    assert ([c] + t)[1..] == t;
  }

  lemma Associative(x: string, y: string, z: string)
    ensures (x + y) + z == x + (y + z)
  {}

  lemma {:induction false} BlackenedConcat(a: string, b: string)
    ensures Blackened(a + b) == Blackened(a) + Blackened(b)
  {
    if a == [] {
      assert a + b == b;
    } else {
      var c, t := a[0], a[1..];
      BlackenedConcat(t, b);
      BlackenedCons(c, t);
      BlackenedCons(c, t + b);
      Associative([c], t, b);
      Associative(if IsWhite(c) then [] else [c], Blackened(t), Blackened(b));
      assert a == [c] + t;
    }
  }

  lemma {:induction false} BlackStays(w: string)
    requires forall i | 0 <= i < |w| :: !IsWhite(w[i])
    ensures Blackened(w) == w
  {
    if w == [] {
    } else {
      BlackStays(w[1..]);
    }
  }

  // ----- the line the kernel prints

  predicate IsField(f: string) {
    f != [] && forall i | 0 <= i < |f| :: !IsWhite(f[i]) && f[i] != ')'
  }

  function Join(fields: seq<string>): string {
    if fields == [] then "\n"
    else if |fields| == 1 then fields[0] + "\n"
    else fields[0] + " " + Join(fields[1..])
  }

  function Render(pid: nat, comm: string, fields: seq<string>): string {
    Print(pid) + " (" + comm + ") " + Join(fields)
  }

  lemma {:induction false} WordBefore(f: string, rest: string)
    requires forall i | 0 <= i < |f| :: !IsWhite(f[i])
    requires rest != [] && IsWhite(rest[0])
    ensures Word(f + rest) == f
  {
    if f == [] {
      assert f + rest == rest;
    } else {
      WordBefore(f[1..], rest);
      assert (f + rest)[1..] == f[1..] + rest;
    }
  }

  /** Splitting undoes joining. */
  lemma {:induction false} FieldsOfJoin(fields: seq<string>)
    requires forall k | 0 <= k < |fields| :: IsField(fields[k])
    ensures Fields(Join(fields)) == fields
    decreases |fields|
  {
    if fields == [] {
      assert "\n"[1..] == [];
    } else {
      var f, rest := fields[0], if |fields| == 1 then "\n" else " " + Join(fields[1..]);
      assert IsField(f);
      var s := Join(fields);
      assert s == f + rest;
      WordBefore(f, rest);
      assert s[0] == f[0] && s[|f|..] == rest;
      if |fields| == 1 {
        assert Fields("\n"[1..]) == [];
      } else {
        assert rest[1..] == Join(fields[1..]);
        FieldsOfJoin(fields[1..]);
      }
    }
  }

  lemma WithoutLast(s: string, rest: string)
    requires rest != []
    ensures var n := |rest| - 1;
            (s + rest)[|s| + n] == rest[n] && (s + rest)[..|s| + n] == s + rest[..n]
  {}

  lemma {:induction false} LastParenBefore(s: string, rest: string)
    requires ')' !in rest
    ensures LastParen(s + [')'] + rest) == Some(|s|)
  {
    var start := s + [')'];
    if rest == [] {
      assert start + rest == start && start[|start| - 1] == ')';
    } else {
      var n := |rest| - 1;
      LastParenBefore(s, rest[..n]);
      WithoutLast(start, rest);
    }
  }

  lemma {:induction false} JoinHasNoParen(fields: seq<string>)
    requires forall k | 0 <= k < |fields| :: IsField(fields[k])
    ensures ')' !in Join(fields)
  {
    if fields == [] {
    } else {
      assert IsField(fields[0]);
      if |fields| > 1 {
        JoinHasNoParen(fields[1..]);
      }
    }
  }

  lemma ParsesAfter(content: string, p: nat, after: string)
    requires LastParen(content) == Some(p) && p + 1 < |content| && content[p + 1] as int < 0x80
    requires content[p + 2..] == after
    ensures ParseStatContent(content) == ParseFields(Fields(after))
  {
    SliceAfterParen(content, p);
  }

  lemma OnlyWhatFollows(before: string, after: string)
    requires ')' !in after
    ensures ParseStatContent(before + [')'] + (" " + after)) == ParseFields(Fields(after))
  {
    var line := before + [')'] + (" " + after);
    LastParenBefore(before, " " + after);
    assert line[|before| + 1] == ' ';
    assert line[|before| + 2..] == after;
    ParsesAfter(line, |before|, after);
  }

  /** The parser reads exactly the fields after the command name: neither the process id nor
      the command name, whatever parentheses and spaces it contains, has any influence. */
  lemma CommandNameIsIgnored(pid: nat, comm: string, fields: seq<string>)
    requires forall k | 0 <= k < |fields| :: IsField(fields[k])
    ensures ParseStatContent(Render(pid, comm, fields)) == ParseFields(fields)
  {
    var before, after := Print(pid) + " (" + comm, Join(fields);
    assert Render(pid, comm, fields) == before + [')'] + (" " + after);
    JoinHasNoParen(fields);
    OnlyWhatFollows(before, after);
    FieldsOfJoin(fields);
  }

  /** Round trip: printing a line with these counters and parsing it gives them back. */
  lemma RoundTrip(pid: nat, comm: string, fields: seq<string>, utime: nat, stime: nat, threads: nat)
    requires |fields| >= 20 && forall k | 0 <= k < |fields| :: IsField(fields[k])
    requires utime < U64 && stime < U64 && threads < U32
    requires fields[11] == Print(utime) && fields[12] == Print(stime) && fields[17] == Print(threads)
    ensures ParseStatContent(Render(pid, comm, fields))
         == Parsed(ProcStat(StateOf(fields[0]), utime, stime, threads))
  {
    CommandNameIsIgnored(pid, comm, fields);
    ParsePrint(utime, U64);
    ParsePrint(stime, U64);
    ParsePrint(threads, U32);
  }

  /** Printed numbers are fields, so such lines exist for all counters. */
  lemma PrintIsField(n: nat)
    ensures IsField(Print(n))
  {
    PrintValue(n);
  }
}
