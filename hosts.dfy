/** pkg/hosts/manager.go: the managed section of the hosts file, as transforms
    of its lines. Reading and writing the file are left out; the line lists
    those steps produce and consume are the inputs and outputs here. */
module Hosts {
  import opened Text

  const MarkerStart: string := "# BEGIN ngrokd managed section"
  const MarkerEnd: string := "# END ngrokd managed section"

  predicate IsMarker(line: string) {
    Contains(line, MarkerStart) || Contains(line, MarkerEnd)
  }

  predicate NoMarkers(lines: seq<string>) {
    forall i :: 0 <= i < |lines| ==> !IsMarker(lines[i])
  }

  /** Whether the removal loop is inside a section after `lines`, starting in `inSection`. */
  function SectionState(lines: seq<string>, inSection: bool): bool {
    if |lines| == 0 then inSection
    else
      var line := lines[|lines| - 1];
      if Contains(line, MarkerStart) then true
      else if Contains(line, MarkerEnd) then false
      else SectionState(lines[..|lines| - 1], inSection)
  }

  /** The lines the removal loop keeps from `lines`, starting in `inSection`:
      marker lines and lines inside a section go, the rest stay in order. */
  function StripFrom(lines: seq<string>, inSection: bool): seq<string> {
    if |lines| == 0 then []
    else
      var before := lines[..|lines| - 1];
      var line := lines[|lines| - 1];
      if IsMarker(line) || SectionState(before, inSection) then StripFrom(before, inSection)
      else StripFrom(before, inSection) + [line]
  }

  /** removeNgrokdSection, as a value. */
  function Strip(lines: seq<string>): seq<string> {
    StripFrom(lines, false)
  }

  /** removeNgrokdSection */
  method RemoveNgrokdSection(lines: seq<string>) returns (result: seq<string>)
    ensures result == Strip(lines)
  {
    result := [];
    var inSection := false;
    for i := 0 to |lines|
      invariant result == StripFrom(lines[..i], false)
      invariant inSection == SectionState(lines[..i], false)
    {
      var line := lines[i];
      assert lines[..i + 1][..i] == lines[..i];
      if Contains(line, MarkerStart) {
        inSection := true;
        continue;
      }
      if Contains(line, MarkerEnd) {
        inSection := false;
        continue;
      }
      if !inSection {
        result := result + [line];
      }
    }
    assert lines[..|lines|] == lines;
  }

  /** Removal over a concatenation: the second part starts in the state the first leaves. */
  lemma {:induction false} StripConcat(x: seq<string>, y: seq<string>, inSection: bool)
    ensures StripFrom(x + y, inSection) == StripFrom(x, inSection) + StripFrom(y, SectionState(x, inSection))
    ensures SectionState(x + y, inSection) == SectionState(y, SectionState(x, inSection))
    decreases |y|
  {
    if |y| == 0 {
      assert x + y == x;
    } else {
      var y' := y[..|y| - 1];
      assert (x + y)[..|x + y| - 1] == x + y';
      StripConcat(x, y', inSection);
    }
  }

  /** Lines without markers keep the state; outside a section they all stay, inside they all go. */
  lemma {:induction false} StripMarkerFree(lines: seq<string>, inSection: bool)
    requires NoMarkers(lines)
    ensures SectionState(lines, inSection) == inSection
    ensures StripFrom(lines, inSection) == if inSection then [] else lines
  {
    if |lines| > 0 {
      StripMarkerFree(lines[..|lines| - 1], inSection);
      assert lines == lines[..|lines| - 1] + [lines[|lines| - 1]];
    }
  }

  /** No marker line survives removal. */
  lemma {:induction false} StripRemovesMarkers(lines: seq<string>, inSection: bool)
    ensures NoMarkers(StripFrom(lines, inSection))
  {
    if |lines| > 0 {
      StripRemovesMarkers(lines[..|lines| - 1], inSection);
    }
  }

  /** Removal is the identity on lines without markers. */
  lemma {:induction false} StripIdentity(lines: seq<string>)
    requires NoMarkers(lines)
    ensures Strip(lines) == lines
  {
    StripMarkerFree(lines, false);
  }

  /** Removing twice is removing once. */
  lemma {:induction false} StripIdempotent(lines: seq<string>)
    ensures Strip(Strip(lines)) == Strip(lines)
  {
    StripRemovesMarkers(lines, false);
    StripIdentity(Strip(lines));
  }

  /** A section from a start marker line to an end marker line goes, with the lines
      between; the lines around it stay in order. */
  lemma {:induction false} StripSection(before: seq<string>, start: string, body: seq<string>, end: string, after: seq<string>)
    requires NoMarkers(before) && NoMarkers(body) && NoMarkers(after)
    requires Contains(start, MarkerStart) && Contains(end, MarkerEnd) && !Contains(end, MarkerStart)
    ensures Strip(before + [start] + body + [end] + after) == before + after
  {
    StripMarkerFree(before, false);
    StripMarkerFree(body, true);
    StripMarkerFree(after, false);
    StripConcat(before, [start], false);
    StripConcat(before + [start], body, false);
    StripConcat(before + [start] + body, [end], false);
    StripConcat(before + [start] + body + [end], after, false);
    assert StripFrom([start], false) == [] && SectionState([start], false);
    assert StripFrom([end], true) == [] && !SectionState([end], true);
  }

  /** One line of the section: `ip<TAB>hostname`. */
  function EntryLine(hostname: string, ip: string): string {
    ip + "\t" + hostname
  }

  /** `order` lists each key of `m` exactly once: the order in which a range over
      the map visits its keys. */
  ghost predicate IsEnumeration(order: seq<string>, m: map<string, string>) {
    (forall i, j :: 0 <= i < j < |order| ==> order[i] != order[j])
    && (forall h :: h in m <==> h in order)
  }

  function EntryLines(m: map<string, string>, hostnames: seq<string>): (r: seq<string>)
    requires forall h :: h in hostnames ==> h in m
    ensures |r| == |hostnames|
  {
    if |hostnames| == 0 then []
    else
      var last := hostnames[|hostnames| - 1];
      EntryLines(m, hostnames[..|hostnames| - 1]) + [EntryLine(last, m[last])]
  }

  /** The blank line addNgrokdSection puts before the section: one, unless the
      lines are empty or already end in an empty line. */
  function Separator(lines: seq<string>): seq<string> {
    if |lines| > 0 && lines[|lines| - 1] != "" then [""] else []
  }

  /** addNgrokdSection, as a value, for the map visited in `order`. */
  function AddSection(lines: seq<string>, m: map<string, string>, order: seq<string>): seq<string>
    requires IsEnumeration(order, m)
  {
    if |m| == 0 then lines
    else lines + Separator(lines) + [MarkerStart] + EntryLines(m, order) + [MarkerEnd]
  }

  /** addNgrokdSection, with the map visited in `order`. */
  method AddNgrokdSection(lines: seq<string>, mappings: map<string, string>, order: seq<string>)
    returns (result: seq<string>)
    requires IsEnumeration(order, mappings)
    ensures result == AddSection(lines, mappings, order)
  {
    if |mappings| == 0 {
      return lines;
    }
    result := lines;
    if |result| > 0 && result[|result| - 1] != "" {
      result := result + [""];
    }
    result := result + [MarkerStart];
    ghost var head := result;
    for i := 0 to |order|
      invariant result == head + EntryLines(mappings, order[..i])
    {
      assert order[..i + 1][..i] == order[..i];
      result := result + [EntryLine(order[i], mappings[order[i]])];
    }
    assert order[..|order|] == order;
    result := result + [MarkerEnd];
  }

  /** The line transform of UpdateHosts: remove the old section, add a fresh one. */
  function UpdateLines(lines: seq<string>, m: map<string, string>, order: seq<string>): seq<string>
    requires IsEnumeration(order, m)
  {
    AddSection(Strip(lines), m, order)
  }

  /** UpdateHosts without the file I/O. */
  method UpdateHosts(lines: seq<string>, mappings: map<string, string>, order: seq<string>)
    returns (updated: seq<string>)
    requires IsEnumeration(order, mappings)
    ensures updated == UpdateLines(lines, mappings, order)
  {
    var filtered := RemoveNgrokdSection(lines);
    updated := AddNgrokdSection(filtered, mappings, order);
  }

  /** RemoveAll without the file I/O: UpdateHosts with no mappings. */
  method RemoveAll(lines: seq<string>) returns (updated: seq<string>)
    ensures updated == Strip(lines)
  {
    updated := UpdateHosts(lines, map[], []);
  }

  /** Hostnames and addresses that can be written as entries and read back: non-empty,
      without white space, and the address does not start a comment. */
  predicate WritableEntries(m: map<string, string>) {
    forall h :: h in m ==> IsToken(h) && IsToken(m[h]) && m[h][0] != '#'
  }

  /** A line with a single white-space character holds no string with white space
      at two different positions. */
  lemma {:induction false} OneSpaceOnly(ip: string, hostname: string, marker: string, k1: nat, k2: nat)
    requires IsToken(ip) && IsToken(hostname)
    requires k1 < k2 < |marker| && IsSpace(marker[k1]) && IsSpace(marker[k2])
    ensures !Contains(EntryLine(hostname, ip), marker)
  {
    var s := EntryLine(hostname, ip);
    var r := IndexOf(s, marker);
    assert forall k :: 0 <= k < |s| && k != |ip| ==> !IsSpace(s[k]) by {
      forall k | 0 <= k < |s| && k != |ip|
        ensures !IsSpace(s[k])
      {
        if k < |ip| {
          assert s[k] == ip[k];
        } else {
          assert s[k] == hostname[k - |ip| - 1];
        }
      }
    }
  }

  lemma {:induction false} EntryNotMarker(hostname: string, ip: string)
    requires IsToken(ip) && IsToken(hostname)
    ensures !IsMarker(EntryLine(hostname, ip))
  {
    OneSpaceOnly(ip, hostname, MarkerStart, 1, 7);
    OneSpaceOnly(ip, hostname, MarkerEnd, 1, 5);
  }

  lemma {:induction false} EntryLinesNoMarkers(m: map<string, string>, hostnames: seq<string>)
    requires (forall h :: h in hostnames ==> h in m) && WritableEntries(m)
    ensures NoMarkers(EntryLines(m, hostnames))
  {
    if |hostnames| > 0 {
      var last := hostnames[|hostnames| - 1];
      EntryLinesNoMarkers(m, hostnames[..|hostnames| - 1]);
      EntryNotMarker(last, m[last]);
    }
  }

  lemma {:induction false} ShorterContainsNot(s: string, sub: string)
    requires |s| < |sub|
    ensures !Contains(s, sub)
  {
    if |s| > 0 {
      ShorterContainsNot(s[1..], sub);
    }
  }

  lemma {:induction false} MarkersDistinct()
    ensures Contains(MarkerStart, MarkerStart) && Contains(MarkerEnd, MarkerEnd)
    ensures !Contains(MarkerEnd, MarkerStart)
    ensures NoMarkers([""])
  {
    ShorterContainsNot(MarkerEnd, MarkerStart);
    ShorterContainsNot("", MarkerStart);
    ShorterContainsNot("", MarkerEnd);
  }

  lemma {:induction false} SeparatedNoMarkers(lines: seq<string>)
    requires NoMarkers(lines)
    ensures NoMarkers(lines + Separator(lines))
  {
    MarkersDistinct();
  }

  /** A section written after marker-free lines is removed again, and only it. */
  lemma {:induction false} StripFreshSection(head: seq<string>, body: seq<string>)
    requires NoMarkers(head) && NoMarkers(body)
    ensures Strip(head + [MarkerStart] + body + [MarkerEnd]) == head
  {
    MarkersDistinct();
    assert head + [MarkerStart] + body + [MarkerEnd] == head + [MarkerStart] + body + [MarkerEnd] + [];
    StripSection(head, MarkerStart, body, MarkerEnd, []);
    assert head + [] == head;
  }

  /** A fresh section contributes no lines to a later removal, which ends outside it. */
  lemma {:induction false} StripAdded(lines: seq<string>, m: map<string, string>, order: seq<string>)
    requires NoMarkers(lines) && IsEnumeration(order, m) && WritableEntries(m)
    ensures Strip(AddSection(lines, m, order)) == lines + (if |m| == 0 then [] else Separator(lines))
  {
    if |m| == 0 {
      StripIdentity(lines);
    } else {
      EntryLinesNoMarkers(m, order);
      SeparatedNoMarkers(lines);
      StripFreshSection(lines + Separator(lines), EntryLines(m, order));
    }
  }

  /** Removing the section from updated lines leaves the old lines without their
      section, plus the separating blank line when one was added. */
  lemma {:induction false} StripUpdated(lines: seq<string>, m: map<string, string>, order: seq<string>)
    requires IsEnumeration(order, m) && WritableEntries(m) && |m| > 0
    ensures Strip(UpdateLines(lines, m, order)) == Strip(lines) + Separator(Strip(lines))
  {
    StripRemovesMarkers(lines, false);
    StripAdded(Strip(lines), m, order);
  }

  lemma {:induction false} SeparatorOnce(lines: seq<string>)
    ensures Separator(lines + Separator(lines)) == []
  {
  }

  /** After lines ending in a blank line, the section follows directly. */
  lemma {:induction false} AddAfterSeparator(head: seq<string>, m: map<string, string>, order: seq<string>)
    requires IsEnumeration(order, m) && |m| > 0 && Separator(head) == []
    ensures AddSection(head, m, order) == head + [MarkerStart] + EntryLines(m, order) + [MarkerEnd]
  {
  }

  /** UpdateHosts applied twice with the same mappings gives what applying it once with
      the second visiting order gives: the section is replaced, and no blank line piles up. */
  lemma {:induction false} UpdateIdempotent(lines: seq<string>, m: map<string, string>, order1: seq<string>, order2: seq<string>)
    requires IsEnumeration(order1, m) && IsEnumeration(order2, m) && WritableEntries(m)
    ensures UpdateLines(UpdateLines(lines, m, order1), m, order2) == UpdateLines(lines, m, order2)
  {
    if |m| > 0 {
      var base := Strip(lines);
      var once := UpdateLines(lines, m, order1);
      StripUpdated(lines, m, order1);
      var head := base + Separator(base);
      assert Strip(once) == head;
      SeparatorOnce(base);
      AddAfterSeparator(head, m, order2);
      assert UpdateLines(once, m, order2) == AddSection(head, m, order2);
    } else {
      StripIdempotent(lines);
    }
  }

  /** The state of the GetCurrentMappings loop: the mappings read so far, whether it is
      inside the section, and whether it has met the end marker and stopped. */
  datatype Scan = Scan(mappings: map<string, string>, inSection: bool, stopped: bool)

  const Unscanned: Scan := Scan(map[], false, false)

  /** One step of the GetCurrentMappings loop. */
  function ScanLine(st: Scan, line: string): Scan {
    if st.stopped then st
    else if Contains(line, MarkerStart) then st.(inSection := true)
    else if Contains(line, MarkerEnd) then st.(stopped := true)
    else if st.inSection && !("#" <= line) && !IsBlank(line) && |Fields(line)| >= 2 then
      st.(mappings := st.mappings[Fields(line)[1] := Fields(line)[0]])
    else st
  }

  function ScanLines(lines: seq<string>, st: Scan): Scan {
    if |lines| == 0 then st else ScanLine(ScanLines(lines[..|lines| - 1], st), lines[|lines| - 1])
  }

  /** The mappings GetCurrentMappings reads from the lines. */
  function Parse(lines: seq<string>): map<string, string> {
    ScanLines(lines, Unscanned).mappings
  }

  /** GetCurrentMappings after the file has been read into lines. */
  method GetCurrentMappings(lines: seq<string>) returns (mappings: map<string, string>)
    ensures mappings == Parse(lines)
  {
    mappings := map[];
    var inSection := false;
    for i := 0 to |lines|
      invariant ScanLines(lines[..i], Unscanned) == Scan(mappings, inSection, false)
    {
      var line := lines[i];
      assert lines[..i + 1][..i] == lines[..i];
      if Contains(line, MarkerStart) {
        inSection := true;
        continue;
      }
      if Contains(line, MarkerEnd) {
        ScanConcat(lines[..i + 1], lines[i + 1..], Unscanned);
        ScanStopped(lines[i + 1..], ScanLines(lines[..i + 1], Unscanned));
        assert lines[..i + 1] + lines[i + 1..] == lines;
        break;
      }
      if inSection && !("#" <= line) && !IsBlank(line) {
        var parts := Fields(line);
        if |parts| >= 2 {
          mappings := mappings[parts[1] := parts[0]];
        }
      }
    }
    assert lines[..|lines|] == lines;
  }

  lemma {:induction false} ScanConcat(x: seq<string>, y: seq<string>, st: Scan)
    ensures ScanLines(x + y, st) == ScanLines(y, ScanLines(x, st))
    decreases |y|
  {
    if |y| == 0 {
      assert x + y == x;
    } else {
      var y' := y[..|y| - 1];
      assert (x + y)[..|x + y| - 1] == x + y';
      ScanConcat(x, y', st);
    }
  }

  /** After the end marker nothing more is read. */
  lemma {:induction false} ScanStopped(lines: seq<string>, st: Scan)
    requires st.stopped
    ensures ScanLines(lines, st) == st
  {
    if |lines| > 0 {
      ScanStopped(lines[..|lines| - 1], st);
    }
  }

  /** Marker-free lines outside the section are not read. */
  lemma {:induction false} ScanOutside(lines: seq<string>, st: Scan)
    requires NoMarkers(lines) && !st.inSection
    ensures ScanLines(lines, st) == st
  {
    if |lines| > 0 {
      ScanOutside(lines[..|lines| - 1], st);
    }
  }

  /** strings.Fields of an entry line gives back the address and the hostname. */
  lemma {:induction false} EntryFields(hostname: string, ip: string)
    requires IsToken(ip) && IsToken(hostname)
    ensures Fields(EntryLine(hostname, ip)) == [ip, hostname]
  {
    assert EntryLine(hostname, ip) == ip + ['\t'] + hostname;
    FieldsOfPair(ip, '\t', hostname);
  }

  /** The map the entries of `hostnames` build, later entries overwriting earlier ones. */
  function BuildMap(m: map<string, string>, hostnames: seq<string>): (r: map<string, string>)
    requires forall h :: h in hostnames ==> h in m
  {
    if |hostnames| == 0 then map[]
    else
      var last := hostnames[|hostnames| - 1];
      BuildMap(m, hostnames[..|hostnames| - 1])[last := m[last]]
  }

  lemma {:induction false} BuildMapContents(m: map<string, string>, hostnames: seq<string>)
    requires forall h :: h in hostnames ==> h in m
    ensures forall h :: h in BuildMap(m, hostnames) <==> h in hostnames
    ensures forall h :: h in BuildMap(m, hostnames) ==> BuildMap(m, hostnames)[h] == m[h]
  {
    if |hostnames| > 0 {
      var before := hostnames[..|hostnames| - 1];
      BuildMapContents(m, before);
      assert hostnames == before + [hostnames[|hostnames| - 1]];
    }
  }

  /** Reading the entries inside a section builds their map. */
  lemma {:induction false} ScanEntries(m: map<string, string>, hostnames: seq<string>, acc: map<string, string>)
    requires (forall h :: h in hostnames ==> h in m) && WritableEntries(m)
    ensures ScanLines(EntryLines(m, hostnames), Scan(acc, true, false))
      == Scan(acc + BuildMap(m, hostnames), true, false)
  {
    if |hostnames| > 0 {
      var before := hostnames[..|hostnames| - 1];
      var last := hostnames[|hostnames| - 1];
      ScanEntries(m, before, acc);
      var lines := EntryLines(m, hostnames);
      assert lines[..|lines| - 1] == EntryLines(m, before);
      ScanEntryLine(Scan(acc + BuildMap(m, before), true, false), last, m[last]);
      assert (acc + BuildMap(m, before))[last := m[last]] == acc + BuildMap(m, hostnames);
    } else {
      assert acc + map[] == acc;
    }
  }

  /** Inside the section, an entry line records its hostname and address. */
  lemma {:induction false} ScanEntryLine(st: Scan, hostname: string, ip: string)
    requires IsToken(hostname) && IsToken(ip) && ip[0] != '#' && st.inSection && !st.stopped
    ensures ScanLine(st, EntryLine(hostname, ip)) == st.(mappings := st.mappings[hostname := ip])
  {
    var line := EntryLine(hostname, ip);
    EntryNotMarker(hostname, ip);
    EntryFields(hostname, ip);
    assert line[0] == ip[0];
    assert !IsBlank(line) by {
      assert !IsSpace(line[0]);
    }
    assert !("#" <= line);
  }

  lemma {:induction false} ScanOne(line: string, st: Scan)
    ensures ScanLines([line], st) == ScanLine(st, line)
  {
    assert [line][..0] == [];
  }

  /** The start marker opens the section and the end marker stops the loop. */
  lemma {:induction false} ScanMarkers(st: Scan)
    requires !st.stopped
    ensures ScanLines([MarkerStart], st) == st.(inSection := true)
    ensures ScanLines([MarkerEnd], st) == st.(stopped := true)
  {
    MarkersDistinct();
    ScanOne(MarkerStart, st);
    ScanOne(MarkerEnd, st);
  }

  /** Marker-free lines and then the start marker: inside the section, nothing read yet. */
  lemma {:induction false} ScanOpened(head: seq<string>)
    requires NoMarkers(head)
    ensures ScanLines(head + [MarkerStart], Unscanned) == Scan(map[], true, false)
  {
    ScanOutside(head, Unscanned);
    ScanConcat(head, [MarkerStart], Unscanned);
    ScanMarkers(Unscanned);
  }

  lemma {:induction false} ScanFilled(opening: seq<string>, m: map<string, string>, order: seq<string>)
    requires (forall h :: h in order ==> h in m) && WritableEntries(m)
    requires ScanLines(opening, Unscanned) == Scan(map[], true, false)
    ensures ScanLines(opening + EntryLines(m, order), Unscanned) == Scan(BuildMap(m, order), true, false)
  {
    ScanConcat(opening, EntryLines(m, order), Unscanned);
    ScanEntries(m, order, map[]);
    assert map[] + BuildMap(m, order) == BuildMap(m, order);
  }

  lemma {:induction false} ParseClosed(lines: seq<string>, mappings: map<string, string>)
    requires ScanLines(lines, Unscanned) == Scan(mappings, true, false)
    ensures Parse(lines + [MarkerEnd]) == mappings
  {
    ScanConcat(lines, [MarkerEnd], Unscanned);
    ScanMarkers(Scan(mappings, true, false));
  }

  /** A section written after marker-free lines reads back as the map of its entries. */
  lemma {:induction false} ParseFreshSection(head: seq<string>, m: map<string, string>, order: seq<string>)
    requires NoMarkers(head) && (forall h :: h in order ==> h in m) && WritableEntries(m)
    ensures Parse(head + [MarkerStart] + EntryLines(m, order) + [MarkerEnd]) == BuildMap(m, order)
  {
    ScanOpened(head);
    ScanFilled(head + [MarkerStart], m, order);
    ParseClosed(head + [MarkerStart] + EntryLines(m, order), BuildMap(m, order));
  }

  lemma {:induction false} BuildMapEnumeration(m: map<string, string>, order: seq<string>)
    requires IsEnumeration(order, m)
    ensures BuildMap(m, order) == m
  {
    BuildMapContents(m, order);
  }

  /** Round trip: the mappings read back from updated lines are exactly the mappings
      written, whatever the old lines held. */
  lemma {:induction false} ParseUpdate(lines: seq<string>, m: map<string, string>, order: seq<string>)
    requires IsEnumeration(order, m) && WritableEntries(m)
    ensures Parse(UpdateLines(lines, m, order)) == m
  {
    var base := Strip(lines);
    StripRemovesMarkers(lines, false);
    if |m| == 0 {
      ScanOutside(base, Unscanned);
    } else {
      var head := base + Separator(base);
      SeparatedNoMarkers(base);
      assert UpdateLines(lines, m, order) == head + [MarkerStart] + EntryLines(m, order) + [MarkerEnd];
      ParseFreshSection(head, m, order);
      BuildMapEnumeration(m, order);
    }
  }

  /** The loop stops at the first end marker: nothing after it is read. */
  lemma {:induction false} ParseStopsAtEnd(before: seq<string>, end: string, after: seq<string>)
    requires Contains(end, MarkerEnd) && !Contains(end, MarkerStart)
    ensures Parse(before + [end] + after) == Parse(before)
  {
    ScanConcat(before + [end], after, Unscanned);
    ScanConcat(before, [end], Unscanned);
    ScanStopped(after, ScanLines(before + [end], Unscanned));
  }

  /** A marker-free line that is a comment, blank, or has fewer than two fields is skipped. */
  lemma {:induction false} ParseSkipsLine(before: seq<string>, line: string, after: seq<string>)
    requires !IsMarker(line) && ("#" <= line || IsBlank(line) || |Fields(line)| < 2)
    ensures Parse(before + [line] + after) == Parse(before + after)
  {
    ScanConcat(before + [line], after, Unscanned);
    ScanConcat(before, [line], Unscanned);
    ScanConcat(before, after, Unscanned);
  }

  /** Marker-free lines before the section are skipped. */
  lemma {:induction false} ParseSkipsOutside(before: seq<string>, rest: seq<string>)
    requires NoMarkers(before)
    ensures Parse(before + rest) == Parse(rest)
  {
    ScanConcat(before, rest, Unscanned);
    ScanOutside(before, Unscanned);
  }

  /** A later entry for the same hostname overwrites an earlier one. */
  lemma {:induction false} ParseLaterEntryWins(hostname: string, ip1: string, ip2: string)
    requires IsToken(hostname) && IsToken(ip1) && IsToken(ip2) && ip1[0] != '#' && ip2[0] != '#'
    ensures Parse([MarkerStart, EntryLine(hostname, ip1), EntryLine(hostname, ip2), MarkerEnd])
      == map[hostname := ip2]
  {
    var entries := [EntryLine(hostname, ip1), EntryLine(hostname, ip2)];
    ScanTwoEntries(hostname, ip1, ip2);
    var lines := [MarkerStart] + entries + [MarkerEnd];
    assert lines == [MarkerStart, EntryLine(hostname, ip1), EntryLine(hostname, ip2), MarkerEnd];
    ScanMarkers(Unscanned);
    ScanConcat([MarkerStart], entries, Unscanned);
    ScanConcat([MarkerStart] + entries, [MarkerEnd], Unscanned);
    ScanMarkers(Scan(map[hostname := ip2], true, false));
  }

  /** Inside the section, two entries for one hostname leave the second address. */
  lemma {:induction false} ScanTwoEntries(hostname: string, ip1: string, ip2: string)
    requires IsToken(hostname) && IsToken(ip1) && IsToken(ip2) && ip1[0] != '#' && ip2[0] != '#'
    ensures ScanLines([EntryLine(hostname, ip1), EntryLine(hostname, ip2)], Scan(map[], true, false))
      == Scan(map[hostname := ip2], true, false)
  {
    var first, second := EntryLine(hostname, ip1), EntryLine(hostname, ip2);
    var start := Scan(map[], true, false);
    var afterFirst := Scan(map[hostname := ip1], true, false);
    ScanEntryLine(start, hostname, ip1);
    ScanEntryLine(afterFirst, hostname, ip2);
    assert map[hostname := ip1][hostname := ip2] == map[hostname := ip2];
    assert [first, second][..1] == [first] && [first][..0] == [];
    calc {
      ScanLines([first, second], start);
      ScanLine(ScanLines([first], start), second);
      { assert ScanLines([first], start) == ScanLine(ScanLines([], start), first) == afterFirst; }
      ScanLine(afterFirst, second);
    }
  }
}
