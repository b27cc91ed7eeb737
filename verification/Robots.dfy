/**
 robots.txt: the scanning loop against a reading of the file as a whole.  Times are nanoseconds;
 decimal numbers are parsed by a parameter.
 */
module Robots {
  import opened Wrappers
  import opened Text

  const MAX_RULES := 1000

  // ----- lines -----

  datatype Line = UserAgent(value: string) | Disallow(value: string) | CrawlDelay(value: string) | Other

  function IndexOf(s: string, c: char): (i: nat)
    ensures i <= |s| && (i < |s| ==> s[i] == c) && forall j :: 0 <= j < i ==> s[j] != c
  {
    if s == [] || s[0] == c then 0 else 1 + IndexOf(s[1..], c)
  }

  /** Comments, blank lines, lines without a colon and unknown fields say nothing. */
  function Classify(raw: string): Line {
    var line := Trim(raw);
    var i := IndexOf(line, ':');
    if line == "" || line[0] == '#' || i == |line| then Other
    else
      var (field, value) := (Lower(Trim(line[..i])), Trim(line[i + 1..]));
      if field == "user-agent" then UserAgent(value)
      else if field == "disallow" then Disallow(value)
      else if field == "crawl-delay" then CrawlDelay(value)
      else Other
  }

  predicate Spaces(s: string) {
    forall i :: 0 <= i < |s| ==> IsSpace(s[i])
  }

  /** A word as a line may hold it: not empty, and with no white space at either end. */
  predicate Word(s: string) {
    s != "" && !IsSpace(s[0]) && !IsSpace(s[|s| - 1])
  }

  lemma {:induction false} TrimLeftStrips(lead: string, s: string)
    requires Spaces(lead) && (s == "" || !IsSpace(s[0]))
    ensures TrimLeft(lead + s) == s
  {
    if lead == "" {
      assert lead + s == s;
    } else {
      assert (lead + s)[1..] == lead[1..] + s;
      TrimLeftStrips(lead[1..], s);
    }
  }

  lemma {:induction false} TrimRightStrips(s: string, trail: string)
    requires Spaces(trail) && (s == "" || !IsSpace(s[|s| - 1]))
    ensures TrimRight(s + trail) == s
  {
    if trail == "" {
      assert s + trail == s;
    } else {
      var n := |trail| - 1;
      assert (s + trail)[..|s| + n] == s + trail[..n];
      TrimRightStrips(s, trail[..n]);
    }
  }

  lemma TrimStrips(lead: string, s: string, trail: string)
    requires Spaces(lead) && Spaces(trail) && (s == "" || Word(s))
    ensures Trim(lead + s + trail) == s
  {
    if s == "" {
      assert lead + s + trail == lead + trail;
      TrimSpaces(lead + trail);
    } else {
      assert lead + s + trail == lead + (s + trail);
      TrimLeftStrips(lead, s + trail);
      TrimRightStrips(s, trail);
    }
  }

  lemma TrimSpaces(s: string)
    requires Spaces(s)
    ensures Trim(s) == ""
  {
    assert s + "" == s;
    TrimLeftStrips(s, "");
  }

  /** What field a line has, in any case of its name. */
  function LineOf(name: string, value: string): Line {
    if Lower(name) == "user-agent" then UserAgent(value)
    else if Lower(name) == "disallow" then Disallow(value)
    else if Lower(name) == "crawl-delay" then CrawlDelay(value)
    else Other
  }

  lemma FirstColon(a: string, b: string)
    requires ':' !in a
    ensures var s := a + ":" + b;
            IndexOf(s, ':') == |a| < |s| && s[..|a|] == a && s[|a| + 1..] == b
  {
    var s := a + ":" + b;
    assert s[|a|] == ':' && forall i :: 0 <= i < |a| ==> s[i] == a[i];
  }

  lemma ClassifyParts(raw: string, left: string, right: string)
    requires Trim(raw) == left + ":" + right && left != "" && left[0] != '#' && ':' !in left
    ensures Classify(raw) == LineOf(Trim(left), Trim(right))
  {
    FirstColon(left, right);
    assert (left + ":" + right)[0] == left[0];
  }

  lemma ClassifyWord(raw: string, name: string, mid: string, gap: string, value: string)
    requires Trim(raw) == (name + mid) + ":" + (gap + value)
    requires Word(name) && name[0] != '#' && ':' !in name && ':' !in mid && Spaces(mid) && Spaces(gap)
    requires value == "" || Word(value)
    ensures Classify(raw) == LineOf(name, value)
  {
    ClassifyParts(raw, name + mid, gap + value);
    assert name + mid == "" + name + mid && gap + value == gap + value + "";
    TrimStrips("", name, mid);
    TrimStrips(gap, value, "");
  }

  /**
   How a raw line is read: white space of any kind around the field name and around the value says
   nothing, nor does the case of the name, and the name decides what the line is.
   */
  lemma LineIsRead(lead: string, name: string, mid: string, gap: string, value: string, trail: string)
    requires Spaces(lead) && Spaces(mid) && Spaces(gap) && Spaces(trail)
    requires Word(name) && name[0] != '#' && ':' !in name && (value == "" || Word(value))
    ensures Classify(lead + name + mid + ":" + gap + value + trail) == LineOf(name, value)
  {
    var raw := lead + name + mid + ":" + gap + value + trail;
    assert forall i :: 0 <= i < |mid| ==> IsSpace(mid[i]);
    assert ':' !in mid;
    if value == "" {
      var core := name + mid + ":";
      assert raw == lead + core + (gap + trail);
      TrimStrips(lead, core, gap + trail);
      assert core == (name + mid) + ":" + ("" + "");
      ClassifyWord(raw, name, mid, "", "");
    } else {
      var core := name + mid + ":" + gap + value;
      assert raw == lead + core + trail;
      assert core[|core| - 1] == value[|value| - 1] && core[0] == name[0];
      TrimStrips(lead, core, trail);
      assert core == (name + mid) + ":" + (gap + value);
      ClassifyWord(raw, name, mid, gap, value);
    }
  }

  /** Blank lines, comments and lines without a colon say nothing. */
  lemma NothingIsRead(lead: string, text: string, trail: string)
    requires Spaces(lead) && Spaces(trail) && (text == "" || (Word(text) && (text[0] == '#' || ':' !in text)))
    ensures Classify(lead + text + trail) == Other
  {
    TrimStrips(lead, text, trail);
  }

  function Classified(raw: seq<string>): (lines: seq<Line>)
    ensures |lines| == |raw| && forall i :: 0 <= i < |raw| ==> lines[i] == Classify(raw[i])
  {
    seq(|raw|, i requires 0 <= i < |raw| => Classify(raw[i]))
  }

  /** Equality up to case; the crawler's own name is ASCII. */
  predicate EqualFold(a: string, b: string) {
    Fold(a) == Fold(b)
  }

  /** Two texts that differ at most in the case of ASCII letters. */
  predicate SameButForCase(a: string, b: string) {
    |a| == |b| && forall i :: 0 <= i < |a| ==>
      || a[i] == b[i]
      || ('a' <= a[i] <= 'z' && b[i] as int == a[i] as int - 32)
      || ('A' <= a[i] <= 'Z' && b[i] as int == a[i] as int + 32)
  }

  predicate IsAscii(s: string) {
    forall i :: 0 <= i < |s| ==> s[i] < '\U{80}'
  }

  /** Field names and user agents are compared up to case, and up to nothing else. */
  lemma CaseAlone(a: string, b: string)
    requires IsAscii(a) && IsAscii(b)
    ensures EqualFold(a, b) <==> SameButForCase(a, b)
    ensures Lower(a) == Lower(b) <==> SameButForCase(a, b)
  {
    if SameButForCase(a, b) {
      assert Fold(a) == Fold(b) && Lower(a) == Lower(b);
    }
    if Fold(a) == Fold(b) {
      forall i | 0 <= i < |a| ensures FoldChar(a[i]) == FoldChar(b[i]) {
        assert Fold(a)[i] == Fold(b)[i];
      }
    }
    if Lower(a) == Lower(b) {
      forall i | 0 <= i < |a| ensures LowerChar(a[i]) == LowerChar(b[i]) {
        assert Lower(a)[i] == Lower(b)[i];
      }
    }
  }

  // ----- what the file says -----

  /** Line `p` is the nearest user-agent line above line `i`. */
  ghost predicate Governs(lines: seq<Line>, p: int, i: int) {
    0 <= p < i <= |lines| && lines[p].UserAgent? && forall q :: p < q < i ==> !lines[q].UserAgent?
  }

  ghost predicate SpecificAt(lines: seq<Line>, ua: string, i: int) {
    exists p :: Governs(lines, p, i) && EqualFold(lines[p].value, ua)
  }

  ghost predicate AppliesAt(lines: seq<Line>, ua: string, i: int) {
    exists p :: Governs(lines, p, i) && (lines[p].value == "*" || EqualFold(lines[p].value, ua))
  }

  /** The rules among the first `n` lines that are for us, in order. */
  ghost function Rules(lines: seq<Line>, ua: string, n: nat): seq<string>
    requires n <= |lines|
  {
    if n == 0 then []
    else
      Rules(lines, ua, n - 1)
      + (if lines[n - 1].Disallow? && lines[n - 1].value != "" && AppliesAt(lines, ua, n - 1)
         then [lines[n - 1].value] else [])
  }

  type ParseFloat = string -> Option<real>

  function Nanos(secs: real): int {
    (secs * 1_000_000_000.0).Floor
  }

  function PositiveDelay(parse: ParseFloat, value: string): Option<int> {
    var secs := parse(value);
    if secs.Some? && secs.value > 0.0 then Some(Nanos(secs.value)) else None
  }

  /** A positive number of seconds counts, to the nanosecond; anything else says nothing. */
  lemma DelayIsSeconds(parse: ParseFloat, value: string, seconds: nat)
    ensures parse(value) == Some(seconds as real) && seconds > 0 ==>
              PositiveDelay(parse, value) == Some(seconds * 1_000_000_000)
    ensures parse(value).None? || parse(value).value <= 0.0 ==> PositiveDelay(parse, value).None?
  {
    assert seconds as real * 1_000_000_000.0 == (seconds * 1_000_000_000) as real;
  }

  /** The last positive crawl-delay of the groups naming us (`specific`) or of the wildcard groups. */
  ghost function LastDelay(lines: seq<Line>, ua: string, parse: ParseFloat, specific: bool, n: nat): int
    requires n <= |lines|
  {
    if n == 0 then 0
    else if && lines[n - 1].CrawlDelay? && AppliesAt(lines, ua, n - 1)
            && SpecificAt(lines, ua, n - 1) == specific
            && PositiveDelay(parse, lines[n - 1].value).Some?
    then PositiveDelay(parse, lines[n - 1].value).value
    else LastDelay(lines, ua, parse, specific, n - 1)
  }

  function FirstRules(rules: seq<string>): seq<string> {
    if |rules| <= MAX_RULES then rules else rules[..MAX_RULES]
  }

  lemma NextGoverned(lines: seq<Line>, ua: string, i: nat)
    requires i < |lines|
    ensures lines[i].UserAgent? ==>
              && (SpecificAt(lines, ua, i + 1) <==> EqualFold(lines[i].value, ua))
              && (AppliesAt(lines, ua, i + 1) <==> lines[i].value == "*" || EqualFold(lines[i].value, ua))
    ensures !lines[i].UserAgent? ==>
              && (SpecificAt(lines, ua, i + 1) <==> SpecificAt(lines, ua, i))
              && (AppliesAt(lines, ua, i + 1) <==> AppliesAt(lines, ua, i))
  {
    if lines[i].UserAgent? {
      assert Governs(lines, i, i + 1);
    } else {
      forall p ensures Governs(lines, p, i + 1) <==> Governs(lines, p, i) {}
    }
  }

  /** A rule below a user-agent line is for the crawler exactly when that line says "*" or names it, in any case. */
  lemma OneGroup(agent: string, path: string, ua: string)
    requires path != ""
    ensures Rules([UserAgent(agent), Disallow(path)], ua, 2) ==
            if agent == "*" || EqualFold(agent, ua) then [path] else []
    ensures Rules([Disallow(path), UserAgent(agent)], ua, 2) == []
  {
    var below := [UserAgent(agent), Disallow(path)];
    NextGoverned(below, ua, 0);
    assert Rules(below, ua, 1) == [];
    var above := [Disallow(path), UserAgent(agent)];
    assert !AppliesAt(above, ua, 0);
    assert Rules(above, ua, 1) == [];
  }

  /** The variables of the scanning loop. */
  datatype Scan = Scan(applies: bool, specific: bool, rules: seq<string>, wildcardDelay: int, uaDelay: int)

  function ScanLine(x: Scan, line: Line, ua: string, parse: ParseFloat): Scan {
    match line
    case UserAgent(v) => x.(specific := EqualFold(v, ua), applies := v == "*" || EqualFold(v, ua))
    case Disallow(v) => if x.applies && v != "" && |x.rules| < MAX_RULES then x.(rules := x.rules + [v]) else x
    case CrawlDelay(v) =>
      var d := PositiveDelay(parse, v);
      if !x.applies || d.None? then x
      else if x.specific then x.(uaDelay := d.value) else x.(wildcardDelay := d.value)
    case Other => x
  }

  /** After `i` lines the loop's variables hold what those lines say. */
  ghost predicate Reads(x: Scan, lines: seq<Line>, ua: string, parse: ParseFloat, i: nat)
    requires i <= |lines|
  {
    && x.applies == AppliesAt(lines, ua, i) && x.specific == SpecificAt(lines, ua, i)
    && x.rules == FirstRules(Rules(lines, ua, i))
    && x.uaDelay == LastDelay(lines, ua, parse, true, i)
    && x.wildcardDelay == LastDelay(lines, ua, parse, false, i)
  }

  lemma ScanLineReads(x: Scan, lines: seq<Line>, ua: string, parse: ParseFloat, i: nat)
    requires i < |lines| && Reads(x, lines, ua, parse, i)
    ensures Reads(ScanLine(x, lines[i], ua, parse), lines, ua, parse, i + 1)
  {
    NextGoverned(lines, ua, i);
  }

  function ScanAll(lines: seq<Line>, ua: string, parse: ParseFloat, i: nat): Scan
    requires i <= |lines|
  {
    if i == 0 then Scan(false, false, [], 0, 0) else ScanLine(ScanAll(lines, ua, parse, i - 1), lines[i - 1], ua, parse)
  }

  lemma {:induction false} ScanAllReads(lines: seq<Line>, ua: string, parse: ParseFloat, i: nat)
    requires i <= |lines|
    ensures Reads(ScanAll(lines, ua, parse, i), lines, ua, parse, i)
  {
    if i == 0 {
    } else {
      ScanAllReads(lines, ua, parse, i - 1);
      ScanLineReads(ScanAll(lines, ua, parse, i - 1), lines, ua, parse, i - 1);
    }
  }

  method ScanFile(lines: seq<Line>, ua: string, parse: ParseFloat) returns (x: Scan)
    ensures x == ScanAll(lines, ua, parse, |lines|)
  {
    var wildcardDelay, uaDelay := 0, 0;
    var applies, uaSpecific := false, false;
    var disallowed := [];
    var i := 0;
    while i < |lines|
      invariant 0 <= i <= |lines|
      invariant Scan(applies, uaSpecific, disallowed, wildcardDelay, uaDelay) == ScanAll(lines, ua, parse, i)
    {
      match lines[i] {
        case UserAgent(value) =>
          uaSpecific := EqualFold(value, ua);
          applies := value == "*" || uaSpecific;
        case Disallow(value) =>
          if applies && value != "" && |disallowed| < MAX_RULES {
            disallowed := disallowed + [value];
          }
        case CrawlDelay(value) =>
          if applies {
            var d := PositiveDelay(parse, value);
            if d.Some? {
              if uaSpecific {
                uaDelay := d.value;
              } else {
                wildcardDelay := d.value;
              }
            }
          }
        case Other =>
      }
      i := i + 1;
    }
    x := Scan(applies, uaSpecific, disallowed, wildcardDelay, uaDelay);
  }

  /**
   The scan keeps two flags and a few lists, and yields what the whole file says: each rule belongs to
   the nearest user-agent line above it, the first 1000 rules count, and a delay naming the crawler
   wins over a wildcard one.
   */
  method ParseRobots(raw: seq<string>, ua: string, parse: ParseFloat) returns (disallowed: seq<string>, delay: int)
    ensures var rules := Rules(Classified(raw), ua, |raw|);
            disallowed == if |rules| <= 1000 then rules else rules[..1000]
    ensures var own := LastDelay(Classified(raw), ua, parse, true, |raw|);
            delay == if own > 0 then own else LastDelay(Classified(raw), ua, parse, false, |raw|)
  {
    var x := ScanFile(Classified(raw), ua, parse);
    ScanAllReads(Classified(raw), ua, parse, |raw|);
    disallowed := x.rules;
    delay := if x.uaDelay > 0 then x.uaDelay else x.wildcardDelay;
  }
}
