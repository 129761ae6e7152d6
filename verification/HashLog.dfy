/** The checksum log: lines appended by one writer, and the reader that rebuilds the map from them. */
module HashLog {

  const EQ: char := '='
  const GT: char := '>'
  const NL: char := '\n'
  const CR: char := '\r'
  /** A line this long, or longer, overflows the reader's buffer. */
  const LINE_LIMIT := 64 * 1024

  /** A line's fields: what lies between its '=' and '>' characters. */
  function Fields(line: string): (fields: seq<string>)
    ensures |fields| > 0
  {
    if line == "" then [""]
    else if line[0] == EQ || line[0] == GT then [""] + Fields(line[1..])
    else
      var fields := Fields(line[1..]);
      [[line[0]] + fields[0]] + fields[1..]
  }

  function MakeLine(name: string, hash: string): string {
    name + [EQ, GT] + hash
  }

  predicate FieldFree(s: string) {
    EQ !in s && GT !in s
  }

  /** The line as the scanner hands it out: a carriage return before the line break is dropped. */
  function Chomp(line: string): string {
    if line != "" && line[|line| - 1] == CR then line[..|line| - 1] else line
  }

  datatype Pair = Pair(name: string, hash: string)

  /** What the reader takes from one line, if it has the fields to take. */
  datatype Reading = TooFewFields | Reading(pair: Pair)

  function ReadLine(line: string): Reading {
    var fields := Fields(Chomp(line));
    if |fields| < 3 then TooFewFields else Reading(Pair(fields[0], fields[2]))
  }

  lemma {:induction false} FieldsOf(part: string, tail: string)
    requires FieldFree(part)
    ensures Fields(part) == [part]
    ensures tail != "" && (tail[0] == EQ || tail[0] == GT) ==> Fields(part + tail) == [part] + Fields(tail[1..])
  {
    if part == "" {
      assert part + tail == tail;
    } else {
      FieldsOf(part[1..], tail);
      assert (part + tail)[1..] == part[1..] + tail;
      assert [part[0]] + part[1..] == part;
    }
  }

  lemma {:induction false} FieldsAreFree(line: string)
    ensures forall i :: 0 <= i < |Fields(line)| ==> FieldFree(Fields(line)[i])
    ensures NL !in line ==> forall i :: 0 <= i < |Fields(line)| ==> NL !in Fields(line)[i]
  {
    if line != "" {
      FieldsAreFree(line[1..]);
    }
  }

  /** A caller can check this before storing a checksum. */
  predicate Storable(name: string, hash: string) {
    FieldFree(name) && FieldFree(hash) && (hash == "" || hash[|hash| - 1] != CR)
  }

  lemma ThreeFields(name: string, h: string)
    requires FieldFree(name) && FieldFree(h)
    ensures Fields(name + ([EQ, GT] + h)) == [name, "", h]
  {
    FieldsOf(name, [EQ, GT] + h);
    assert ([EQ, GT] + h)[1..] == [GT] + h && ([GT] + h)[1..] == h;
    FieldsOf("", [GT] + h);
    assert "" + ([GT] + h) == [GT] + h;
    FieldsOf(h, "");
  }

  /** A stored line reads back as the pair it was made from exactly when the pair is free of the separators and its
      hash does not end in a carriage return. */
  lemma LineReadsBackIff(name: string, hash: string)
    ensures ReadLine(MakeLine(name, hash)) == Reading(Pair(name, hash)) <==> Storable(name, hash)
  {
    var line := MakeLine(name, hash);
    FieldsAreFree(Chomp(line));
    if hash != "" {
      assert line[|line| - 1] == hash[|hash| - 1];
    }
    if FieldFree(name) && FieldFree(hash) {
      var h := Chomp(hash);
      assert Chomp(line) == name + ([EQ, GT] + h);
      ThreeFields(name, h);
    }
  }

  // ----- The file as a whole -----

  function Stored(pairs: seq<Pair>): string {
    if pairs == [] then ""
    else
      var last := pairs[|pairs| - 1];
      Stored(pairs[..|pairs| - 1]) + MakeLine(last.name, last.hash) + [NL]
  }

  /** The map in which the last pair for a name wins. */
  function LastWins(pairs: seq<Pair>): map<string, string> {
    if pairs == [] then map[]
    else LastWins(pairs[..|pairs| - 1])[pairs[|pairs| - 1].name := pairs[|pairs| - 1].hash]
  }

  /** A caller can check this before storing a checksum. */
  predicate Readable(p: Pair) {
    Storable(p.name, p.hash) && NL !in p.name && NL !in p.hash && |MakeLine(p.name, p.hash)| < LINE_LIMIT
  }

  predicate AllReadable(pairs: seq<Pair>) {
    forall i :: 0 <= i < |pairs| ==> Readable(pairs[i])
  }

  // ----- The reader -----

  /** The length of the first line. */
  function LineLength(s: string): (n: nat)
    ensures n <= |s| && (forall k :: 0 <= k < n ==> s[k] != NL) && (n < |s| ==> s[n] == NL)
  {
    if s == "" || s[0] == NL then 0 else 1 + LineLength(s[1..])
  }

  /** What follows the first line. */
  function AfterLine(s: string): string {
    var n := LineLength(s);
    if n < |s| then s[n + 1..] else ""
  }

  datatype Outcome = Outcome(hashmap: map<string, string>, panicked: bool)

  /** Reading on from here: it panics at a line with too few fields and ends quietly at a line that is too long. */
  function Scan(rest: string, hashmap: map<string, string>): Outcome
    decreases |rest|
  {
    if rest == "" then Outcome(hashmap, false)
    else
      var n := LineLength(rest);
      if n >= LINE_LIMIT then Outcome(hashmap, false)
      else
        match ReadLine(rest[..n])
        case TooFewFields => Outcome(hashmap, true)
        case Reading(pair) => Scan(AfterLine(rest), hashmap[pair.name := pair.hash])
  }

  /** The checksum file of one folder. */
  class HashFile {
    var text: string
    ghost var pairs: seq<Pair>

    ghost predicate Valid()
      reads this
    {
      text == Stored(pairs)
    }

    constructor ()
      ensures Valid() && pairs == []
    {
      text, pairs := "", [];
    }

    method StoreHashsum(filename: string, hash: string)
      requires Valid()
      modifies this
      ensures Valid() && pairs == old(pairs) + [Pair(filename, hash)]
      ensures text == old(text) + (filename + "=>" + hash + "\n")
    {
      var line := filename + "=>" + hash + "\n";
      assert line == MakeLine(filename, hash) + [NL];
      assert text + line == text + MakeLine(filename, hash) + [NL];
      text := text + line;
      pairs := pairs + [Pair(filename, hash)];
      assert pairs[..|pairs| - 1] == old(pairs);
    }

    /** Scans the file line by line. */
    method GetHashsum() returns (hashmap: map<string, string>, panicked: bool)
      requires Valid()
      ensures Outcome(hashmap, panicked) == Scan(text, map[])
      ensures AllReadable(pairs) ==> !panicked && hashmap == LastWins(pairs)
      ensures |pairs| == 1 ==>
                (!panicked && hashmap == map[pairs[0].name := pairs[0].hash] <==> Readable(pairs[0]))
    {
      FileReadsBack(pairs);
      hashmap, panicked := map[], false;
      ghost var all := Scan(text, map[]);
      var pos := 0;
      assert text[0..] == text;
      while pos < |text|
        invariant 0 <= pos <= |text| && !panicked
        invariant Scan(text[pos..], hashmap) == all
      {
        ScanStep(text, pos, hashmap);
        var rest := text[pos..];
        var n := LineLength(rest);
        if n >= LINE_LIMIT {
          return;
        }
        match ReadLine(rest[..n])
        case TooFewFields =>
          panicked := true;
          return;
        case Reading(pair) =>
          hashmap := hashmap[pair.name := pair.hash];
        pos := NextLine(text, pos);
      }
    }
  }

  /** Where the line after the one at `pos` starts. */
  function NextLine(text: string, pos: nat): (next: nat)
    requires pos < |text|
    ensures pos < next <= |text|
  {
    var n := LineLength(text[pos..]);
    if pos + n < |text| then pos + n + 1 else pos + n
  }

  /** One step of the scanner. */
  lemma ScanStep(text: string, pos: nat, hashmap: map<string, string>)
    requires pos < |text|
    ensures var rest := text[pos..]; var n := LineLength(rest);
            Scan(rest, hashmap) ==
            if n >= LINE_LIMIT then Outcome(hashmap, false)
            else
              match ReadLine(rest[..n])
              case TooFewFields => Outcome(hashmap, true)
              case Reading(pair) => Scan(text[NextLine(text, pos)..], hashmap[pair.name := pair.hash])
  {
    var rest := text[pos..];
    var n := LineLength(rest);
    assert AfterLine(rest) == text[NextLine(text, pos)..] by {
      if n < |rest| {
        assert rest[n + 1..] == text[pos + n + 1..];
      }
    }
  }

  // ----- Round trips -----

  lemma StoredSnoc(pairs: seq<Pair>, p: Pair)
    ensures Stored(pairs + [p]) == Stored(pairs) + MakeLine(p.name, p.hash) + [NL]
  {
    assert (pairs + [p])[..|pairs|] == pairs;
  }

  /** The first pair's line comes first. */
  lemma {:induction false} StoredCons(p: Pair, later: seq<Pair>)
    ensures Stored([p] + later) == MakeLine(p.name, p.hash) + [NL] + Stored(later)
  {
    if later == [] {
      assert [p] + later == [] + [p];
      StoredSnoc([], p);
      assert Stored([]) + MakeLine(p.name, p.hash) == MakeLine(p.name, p.hash);
    } else {
      var init, last := later[..|later| - 1], later[|later| - 1];
      StoredCons(p, init);
      assert later == init + [last] && [p] + later == ([p] + init) + [last];
      StoredSnoc([p] + init, last);
      StoredSnoc(init, last);
      Regroup(MakeLine(p.name, p.hash) + [NL], Stored(init), MakeLine(last.name, last.hash), [NL]);
    }
  }

  lemma Regroup(a: string, b: string, c: string, d: string)
    ensures (a + b) + c + d == a + (b + c + d)
  {
  }

  lemma FirstLine(line: string, tail: string)
    requires NL !in line
    ensures var s := line + [NL] + tail;
            LineLength(s) == |line| && s[..|line|] == line && AfterLine(s) == tail && s != ""
  {
    var s := line + [NL] + tail;
    assert s[|line|] == NL;
    assert forall k :: 0 <= k < |line| ==> s[k] == line[k] && line[k] in line;
    assert s[|line| + 1..] == tail;
  }

  lemma LineHasNoBreak(p: Pair)
    requires NL !in p.name && NL !in p.hash
    ensures NL !in MakeLine(p.name, p.hash)
  {
    assert NL !in [EQ, GT];
  }

  /** Reading past one stored pair. */
  lemma ScanPair(p: Pair, tail: string, hashmap: map<string, string>)
    requires Readable(p)
    ensures Scan(MakeLine(p.name, p.hash) + [NL] + tail, hashmap) == Scan(tail, hashmap[p.name := p.hash])
  {
    LineHasNoBreak(p);
    FirstLine(MakeLine(p.name, p.hash), tail);
    LineReadsBackIff(p.name, p.hash);
  }

  lemma LastWinsSnoc(pairs: seq<Pair>, p: Pair)
    ensures LastWins(pairs + [p]) == LastWins(pairs)[p.name := p.hash]
  {
    assert (pairs + [p])[..|pairs|] == pairs;
  }

  lemma {:induction false} ScanStored(done: seq<Pair>, rest: seq<Pair>)
    requires AllReadable(rest)
    ensures Scan(Stored(rest), LastWins(done)) == Outcome(LastWins(done + rest), false)
    decreases |rest|
  {
    if rest == [] {
      assert done + rest == done;
    } else {
      var p, later := rest[0], rest[1..];
      assert rest == [p] + later && done + rest == (done + [p]) + later;
      StoredCons(p, later);
      ScanPair(p, Stored(later), LastWins(done));
      LastWinsSnoc(done, p);
      ScanStored(done + [p], later);
    }
  }

  /** Names and hashes the reader can produce. */
  predicate Clean(s: string) {
    FieldFree(s) && NL !in s
  }

  ghost predicate CleanMap(m: map<string, string>) {
    forall k :: k in m ==> Clean(k) && Clean(m[k])
  }

  lemma {:induction false} ScanIsClean(rest: string, hashmap: map<string, string>)
    requires CleanMap(hashmap)
    ensures CleanMap(Scan(rest, hashmap).hashmap)
    decreases |rest|
  {
    var n := LineLength(rest);
    if rest != "" && n < LINE_LIMIT && ReadLine(rest[..n]).Reading? {
      var line := rest[..n];
      assert NL !in line;
      assert NL !in Chomp(line);
      FieldsAreFree(Chomp(line));
      var pair := ReadLine(line).pair;
      ScanIsClean(AfterLine(rest), hashmap[pair.name := pair.hash]);
    }
  }

  lemma ReadableMeans(p: Pair)
    ensures Readable(p) <==>
      && '=' !in p.name && '>' !in p.name && '\n' !in p.name && '=' !in p.hash && '>' !in p.hash && '\n' !in p.hash
      && (p.hash != "" ==> p.hash[|p.hash| - 1] != '\r') && |p.name| + 2 + |p.hash| < 65536
  {
  }

  /** A file holding one pair reads back as that pair exactly when the pair is free of separators and line breaks, its
      hash does not end in a carriage return, and its line is short enough. */
  lemma OnePairReadsBackIff(p: Pair)
    ensures Scan(Stored([p]), map[]) == Outcome(map[p.name := p.hash], false) <==> Readable(p)
    ensures Readable(p) <==>
      && '=' !in p.name && '>' !in p.name && '\n' !in p.name && '=' !in p.hash && '>' !in p.hash && '\n' !in p.hash
      && (p.hash != "" ==> p.hash[|p.hash| - 1] != '\r') && |p.name| + 2 + |p.hash| < 65536
  {
    var line := MakeLine(p.name, p.hash);
    ReadableMeans(p);
    StoredCons(p, []);
    assert [p] + [] == [p] && line + [NL] + Stored([]) == line + [NL];
    if Readable(p) {
      ScanPair(p, "", map[]);
    }
    if Scan(Stored([p]), map[]) == Outcome(map[p.name := p.hash], false) {
      ScanIsClean(Stored([p]), map[]);
      assert p.name in map[p.name := p.hash];
      LineHasNoBreak(p);
      FirstLine(line, "");
      assert line + [NL] + "" == line + [NL];
      OneLineRead(p, line);
    }
  }

  lemma OneLineRead(p: Pair, line: string)
    requires line == MakeLine(p.name, p.hash) && LineLength(line + [NL]) == |line| && (line + [NL])[..|line|] == line
    requires AfterLine(line + [NL]) == "" && line + [NL] != ""
    requires Scan(line + [NL], map[]) == Outcome(map[p.name := p.hash], false)
    requires Clean(p.name) && Clean(p.hash)
    ensures Readable(p)
  {
    var wanted := map[p.name := p.hash];
    assert p.name in wanted && wanted != map[];
    assert |line| < LINE_LIMIT && ReadLine(line).Reading?;
    var q := ReadLine(line).pair;
    var got: map<string, string> := map[][q.name := q.hash];
    assert Scan("", got) == Outcome(got, false);
    assert got == wanted;
    assert q.name in got && q.name in wanted && wanted[q.name] == got[q.name];
    LineReadsBackIff(p.name, p.hash);
  }

  /** What the reader makes of a file: of readable pairs always the last-wins map; of a single pair the pair exactly
      if it is readable. */
  lemma FileReadsBack(pairs: seq<Pair>)
    ensures AllReadable(pairs) ==> Scan(Stored(pairs), map[]) == Outcome(LastWins(pairs), false)
    ensures |pairs| == 1 ==>
              var p := pairs[0];
              (Scan(Stored(pairs), map[]) == Outcome(map[p.name := p.hash], false) <==> Readable(p))
  {
    if AllReadable(pairs) {
      ScanStored([], pairs);
      assert [] + pairs == pairs;
    }
    if |pairs| == 1 {
      OnePairReadsBackIff(pairs[0]);
      assert pairs == [pairs[0]];
    }
  }

  /** A name with a line break in it is stored without complaint and makes the reader panic. */
  lemma LineBreakPanics(head: string, p: Pair)
    requires NL !in head && |head| < LINE_LIMIT && FieldFree(head) && head + [NL] <= p.name
    ensures Scan(Stored([p]), map[]) == Outcome(map[], true)
  {
    var tail := p.name[|head| + 1..] + [EQ, GT] + p.hash + [NL];
    StoredCons(p, []);
    assert [p] + [] == [p];
    assert p.name == head + [NL] + p.name[|head| + 1..];
    assert Stored([p]) == head + [NL] + tail;
    FirstLine(head, tail);
    var chomped := Chomp(head);
    assert FieldFree(chomped);
    FieldsOf(chomped, "");
  }
}
