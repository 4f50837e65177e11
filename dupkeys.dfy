// The JSON editor's duplicate-key scanner: a single pass over the text that
// tracks object depth, reads string literals, and reports a key met again
// at the same depth.
module DupKeys {

  /** A reported duplicate: the key as read and the index of its opening quote. */
  datatype Duplicate = Duplicate(key: string, position: nat)

  /** The characters JavaScript's regular-expression class `\s` matches. */
  predicate IsSpace(c: char)
  {
    c == ' ' || c == '\t' || c == '\n' || c == '\U{B}' || c == '\U{C}' || c == '\r'
    || c == '\U{A0}' || c == '\U{1680}' || ('\U{2000}' <= c <= '\U{200A}')
    || c == '\U{2028}' || c == '\U{2029}' || c == '\U{202F}' || c == '\U{205F}'
    || c == '\U{3000}' || c == '\U{FEFF}'
  }

  /** `/^\s*:/.test(s.slice(j))`. */
  predicate ColonAhead(s: string, j: nat)
    decreases |s| - j
  {
    j < |s| && (s[j] == ':' || (IsSpace(s[j]) && ColonAhead(s, j + 1)))
  }

  /**
   * The string-literal reader from index j: a backslash escapes the next
   * character (and is dropped), an unescaped quote ends the literal. The
   * result is where reading stopped and the key read; reading stops before
   * the end only at a closing quote.
   */
  function ReadLiteral(s: string, j: nat, esc: bool, key: string): (r: (nat, string))
    requires j <= |s|
    ensures j <= r.0 <= |s|
    ensures r.0 < |s| ==> s[r.0] == '"'
    decreases |s| - j
  {
    if j >= |s| then (j, key)
    else if !esc && s[j] == '\\' then ReadLiteral(s, j + 1, true, key)
    else if !esc && s[j] == '"' then (j, key)
    else ReadLiteral(s, j + 1, false, key + [s[j]])
  }

  function Max(a: int, b: int): int { if a >= b then a else b }

  /**
   * The scan from index i with the current depth, the keys seen per depth
   * and the duplicates found so far. A closed literal followed by optional
   * whitespace and a colon is a key; scanning resumes after the closing
   * quote of any closed literal, and inside an unclosed one.
   */
  function Scan(s: string, i: nat, depth: nat, seen: map<nat, set<string>>, dups: seq<Duplicate>): seq<Duplicate>
    requires i <= |s|
    decreases |s| - i
  {
    if i == |s| then dups
    else if s[i] == '{' then Scan(s, i + 1, depth + 1, seen, dups)
    else if s[i] == '}' then Scan(s, i + 1, if depth == 0 then 0 else depth - 1, seen - {depth}, dups)
    else if s[i] == '"' then
      var lit := ReadLiteral(s, i + 1, false, "");
      if lit.0 == |s| then Scan(s, i + 1, depth, seen, dups)
      else if !ColonAhead(s, lit.0 + 1) then Scan(s, lit.0 + 1, depth, seen, dups)
      else
        var row := if depth in seen then seen[depth] else {};
        if lit.1 in row then Scan(s, lit.0 + 1, depth, seen[depth := row], dups + [Duplicate(lit.1, i)])
        else Scan(s, lit.0 + 1, depth, seen[depth := row + {lit.1}], dups)
    else Scan(s, i + 1, depth, seen, dups)
  }

  /** `detectDuplicateKeys(str)`. */
  method DetectDuplicateKeys(s: string) returns (duplicates: seq<Duplicate>)
    ensures duplicates == Scan(s, 0, 0, map[], [])
  {
    duplicates := [];
    var seen: map<nat, set<string>> := map[];
    var depth: nat := 0;
    var i := 0;
    while i < |s|
      invariant i <= |s|
      invariant Scan(s, i, depth, seen, duplicates) == Scan(s, 0, 0, map[], [])
    {
      var ch := s[i];
      if ch == '{' {
        depth := depth + 1;
      } else if ch == '}' {
        seen := seen - {depth};
        depth := Max(depth - 1, 0);
      } else if ch == '"' {
        var j := i + 1;
        var esc := false;
        var key := "";
        while j < |s|
          invariant i + 1 <= j <= |s|
          invariant ReadLiteral(s, j, esc, key) == ReadLiteral(s, i + 1, false, "")
        {
          var c := s[j];
          if !esc && c == '\\' {
            esc := true;
            j := j + 1;
          } else if !esc && c == '"' {
            break;
          } else {
            key := key + [c];
            esc := false;
            j := j + 1;
          }
        }
        assert ReadLiteral(s, i + 1, false, "") == (j, key);
        if j < |s| && s[j] == '"' {
          if ColonAhead(s, j + 1) {
            var row := if depth in seen then seen[depth] else {};
            if key in row {
              seen := seen[depth := row];
              duplicates := duplicates + [Duplicate(key, i)];
            } else {
              seen := seen[depth := row + {key}];
            }
          }
          i := j;
        }
      }
      i := i + 1;
    }
  }

  /** What the scan meets, in order: an opening brace, a closing brace at a depth, or a key at a depth. */
  datatype Event = Open | Close(depth: nat) | Key(depth: nat, key: string, position: nat)

  /** The events of the scan from index i at the given depth; the seen keys play no part in them. */
  function Events(s: string, i: nat, depth: nat): seq<Event>
    requires i <= |s|
    decreases |s| - i
  {
    if i == |s| then []
    else if s[i] == '{' then [Open] + Events(s, i + 1, depth + 1)
    else if s[i] == '}' then [Close(depth)] + Events(s, i + 1, if depth == 0 then 0 else depth - 1)
    else if s[i] == '"' then
      var lit := ReadLiteral(s, i + 1, false, "");
      if lit.0 == |s| then Events(s, i + 1, depth)
      else if !ColonAhead(s, lit.0 + 1) then Events(s, lit.0 + 1, depth)
      else [Key(depth, lit.1, i)] + Events(s, lit.0 + 1, depth)
    else Events(s, i + 1, depth)
  }

  /** No close at depth d after event i. */
  predicate NoCloseAfter(evs: seq<Event>, i: nat, d: nat)
  {
    forall m :: i < m < |evs| ==> evs[m] != Close(d)
  }

  /** Key k was met at depth d and no object at depth d has closed since. */
  predicate OpenAtDepth(evs: seq<Event>, d: nat, k: string)
  {
    exists i :: 0 <= i < |evs| && evs[i].Key? && evs[i].depth == d && evs[i].key == k && NoCloseAfter(evs, i, d)
  }

  /** Event j is a key that is already open at its depth: met before at that depth, with no close of that depth between. */
  predicate Repeated(evs: seq<Event>, j: nat)
  {
    j < |evs| && evs[j].Key? && OpenAtDepth(evs[..j], evs[j].depth, evs[j].key)
  }

  /** The repeated keys among the events, in order, each at its opening quote. */
  function Repeats(evs: seq<Event>): seq<Duplicate>
  {
    if evs == [] then []
    else
      var last := evs[|evs| - 1];
      Repeats(evs[..|evs| - 1]) + (if Repeated(evs, |evs| - 1) then [Duplicate(last.key, last.position)] else [])
  }

  /** The keys met at depth d since its last close, counted back from the end. */
  function Row(evs: seq<Event>, d: nat): set<string>
  {
    if evs == [] then {}
    else
      var last := evs[|evs| - 1];
      if last == Close(d) then {}
      else if last.Key? && last.depth == d then Row(evs[..|evs| - 1], d) + {last.key}
      else Row(evs[..|evs| - 1], d)
  }

  /** The keys the scan holds for depth d. */
  function RowOf(seen: map<nat, set<string>>, d: nat): set<string>
  {
    if d in seen then seen[d] else {}
  }

  /** Row collects exactly the keys open at that depth. */
  lemma {:induction false} RowIsOpenKeys(evs: seq<Event>, d: nat, k: string)
    ensures k in Row(evs, d) <==> OpenAtDepth(evs, d, k)
    decreases |evs|
  {
    if evs != [] {
      var n := |evs|;
      var p := evs[..n - 1];
      var last := evs[n - 1];
      RowIsOpenKeys(p, d, k);
      if OpenAtDepth(p, d, k) && last != Close(d) {
        var i :| 0 <= i < |p| && p[i].Key? && p[i].depth == d && p[i].key == k && NoCloseAfter(p, i, d);
        assert evs[i] == p[i];
        assert NoCloseAfter(evs, i, d) by {
          forall m | i < m < n ensures evs[m] != Close(d) {
            if m < n - 1 {
              assert evs[m] == p[m];
            }
          }
        }
      }
      if OpenAtDepth(evs, d, k) {
        var i :| 0 <= i < n && evs[i].Key? && evs[i].depth == d && evs[i].key == k && NoCloseAfter(evs, i, d);
        if i < n - 1 {
          assert last != Close(d);
          assert p[i] == evs[i];
          assert NoCloseAfter(p, i, d) by {
            forall m | i < m < n - 1 ensures p[m] != Close(d) {
              assert p[m] == evs[m];
            }
          }
        }
      }
      if last.Key? && last.depth == d && last.key == k {
        assert NoCloseAfter(evs, n - 1, d);
      }
    }
  }

  /** One more event: the repeats gain that event when it is a key in its depth's row. */
  lemma RepeatsStep(pre: seq<Event>, e: Event)
    ensures Repeats(pre + [e]) == Repeats(pre)
      + (if e.Key? && e.key in Row(pre, e.depth) then [Duplicate(e.key, e.position)] else [])
    ensures forall d :: Row(pre + [e], d) == if e == Close(d) then {} else if e.Key? && e.depth == d then Row(pre, d) + {e.key} else Row(pre, d)
  {
    var evs := pre + [e];
    assert evs[..|evs| - 1] == pre;
    if e.Key? {
      RowIsOpenKeys(pre, e.depth, e.key);
    }
  }

  /** The scan state and the events agree: the seen rows are the event rows and the reports are their repeats. */
  ghost predicate Agrees(seen: map<nat, set<string>>, dups: seq<Duplicate>, pre: seq<Event>)
  {
    (forall d :: RowOf(seen, d) == Row(pre, d)) && dups == Repeats(pre)
  }

  /** An opening brace changes neither the rows nor the repeats. */
  lemma OpenAgrees(seen: map<nat, set<string>>, dups: seq<Duplicate>, pre: seq<Event>)
    requires Agrees(seen, dups, pre)
    ensures Agrees(seen, dups, pre + [Open])
  {
    RepeatsStep(pre, Open);
  }

  /** A closing brace at depth d empties row d, as `delete seen[depth]` does. */
  lemma CloseAgrees(seen: map<nat, set<string>>, dups: seq<Duplicate>, pre: seq<Event>, depth: nat)
    requires Agrees(seen, dups, pre)
    ensures Agrees(seen - {depth}, dups, pre + [Close(depth)])
  {
    RepeatsStep(pre, Close(depth));
  }

  /** A key either is in its row and is reported, or joins its row. */
  lemma KeyAgrees(seen: map<nat, set<string>>, dups: seq<Duplicate>, pre: seq<Event>, depth: nat, k: string, i: nat)
    requires Agrees(seen, dups, pre)
    ensures var row := RowOf(seen, depth);
      Agrees(if k in row then seen[depth := row] else seen[depth := row + {k}],
             if k in row then dups + [Duplicate(k, i)] else dups, pre + [Key(depth, k, i)])
  {
    RepeatsStep(pre, Key(depth, k, i));
  }

  /**
   * From any scan state that agrees with the events met so far, the scan
   * reports the repeats of all the events.
   */
  lemma {:induction false} ScanIsRepeats(s: string, i: nat, depth: nat, seen: map<nat, set<string>>,
                                         dups: seq<Duplicate>, pre: seq<Event>)
    requires i <= |s| && Agrees(seen, dups, pre)
    ensures Scan(s, i, depth, seen, dups) == Repeats(pre + Events(s, i, depth))
    decreases |s| - i, 2
  {
    if i == |s| {
      assert pre + [] == pre;
    } else if s[i] == '{' {
      OpenIsRepeats(s, i, depth, seen, dups, pre);
    } else if s[i] == '}' {
      CloseIsRepeats(s, i, depth, seen, dups, pre);
    } else if s[i] == '"' {
      QuoteIsRepeats(s, i, depth, seen, dups, pre);
    } else {
      ScanIsRepeats(s, i + 1, depth, seen, dups, pre);
    }
  }

  /** The opening-brace case of ScanIsRepeats. */
  lemma {:induction false} OpenIsRepeats(s: string, i: nat, depth: nat, seen: map<nat, set<string>>,
                                         dups: seq<Duplicate>, pre: seq<Event>)
    requires i < |s| && s[i] == '{' && Agrees(seen, dups, pre)
    ensures Scan(s, i, depth, seen, dups) == Repeats(pre + Events(s, i, depth))
    decreases |s| - i, 0
  {
    OpenStep(s, i, depth, seen, dups);
    OpenAgrees(seen, dups, pre);
    calc {
      Scan(s, i, depth, seen, dups);
      ==
      Scan(s, i + 1, depth + 1, seen, dups);
      == { ScanIsRepeats(s, i + 1, depth + 1, seen, dups, pre + [Open]); }
      Repeats(pre + [Open] + Events(s, i + 1, depth + 1));
      == { assert pre + [Open] + Events(s, i + 1, depth + 1) == pre + Events(s, i, depth); }
      Repeats(pre + Events(s, i, depth));
    }
  }

  /** At an opening brace, the scan and the events go one level deeper. */
  lemma OpenStep(s: string, i: nat, depth: nat, seen: map<nat, set<string>>, dups: seq<Duplicate>)
    requires i < |s| && s[i] == '{'
    ensures Scan(s, i, depth, seen, dups) == Scan(s, i + 1, depth + 1, seen, dups)
    ensures Events(s, i, depth) == [Open] + Events(s, i + 1, depth + 1)
  {
  }

  /** The closing-brace case of ScanIsRepeats. */
  lemma {:induction false} CloseIsRepeats(s: string, i: nat, depth: nat, seen: map<nat, set<string>>,
                                          dups: seq<Duplicate>, pre: seq<Event>)
    requires i < |s| && s[i] == '}' && Agrees(seen, dups, pre)
    ensures Scan(s, i, depth, seen, dups) == Repeats(pre + Events(s, i, depth))
    decreases |s| - i, 0
  {
    var depth' := if depth == 0 then 0 else depth - 1;
    CloseStep(s, i, depth, seen, dups);
    CloseAgrees(seen, dups, pre, depth);
    calc {
      Scan(s, i, depth, seen, dups);
      ==
      Scan(s, i + 1, depth', seen - {depth}, dups);
      == { ScanIsRepeats(s, i + 1, depth', seen - {depth}, dups, pre + [Close(depth)]); }
      Repeats(pre + [Close(depth)] + Events(s, i + 1, depth'));
      == { assert pre + [Close(depth)] + Events(s, i + 1, depth') == pre + Events(s, i, depth); }
      Repeats(pre + Events(s, i, depth));
    }
  }

  /** At a closing brace, the scan forgets the row of its depth and both go one level up. */
  lemma CloseStep(s: string, i: nat, depth: nat, seen: map<nat, set<string>>, dups: seq<Duplicate>)
    requires i < |s| && s[i] == '}'
    ensures var depth' := if depth == 0 then 0 else depth - 1;
      Scan(s, i, depth, seen, dups) == Scan(s, i + 1, depth', seen - {depth}, dups)
      && Events(s, i, depth) == [Close(depth)] + Events(s, i + 1, depth')
  {
  }

  /** The quote case of ScanIsRepeats: a literal that is a key is a key event. */
  lemma {:induction false} QuoteIsRepeats(s: string, i: nat, depth: nat, seen: map<nat, set<string>>,
                                          dups: seq<Duplicate>, pre: seq<Event>)
    requires i < |s| && s[i] == '"' && Agrees(seen, dups, pre)
    ensures Scan(s, i, depth, seen, dups) == Repeats(pre + Events(s, i, depth))
    decreases |s| - i, 1
  {
    var lit := ReadLiteral(s, i + 1, false, "");
    if lit.0 == |s| {
      ScanIsRepeats(s, i + 1, depth, seen, dups, pre);
    } else if !ColonAhead(s, lit.0 + 1) {
      ScanIsRepeats(s, lit.0 + 1, depth, seen, dups, pre);
    } else {
      KeyIsRepeats(s, i, depth, seen, dups, pre);
    }
  }

  /** The key case of ScanIsRepeats. */
  lemma {:induction false} KeyIsRepeats(s: string, i: nat, depth: nat, seen: map<nat, set<string>>,
                                        dups: seq<Duplicate>, pre: seq<Event>)
    requires i < |s| && s[i] == '"' && Agrees(seen, dups, pre)
    requires ReadLiteral(s, i + 1, false, "").0 < |s| && ColonAhead(s, ReadLiteral(s, i + 1, false, "").0 + 1)
    ensures Scan(s, i, depth, seen, dups) == Repeats(pre + Events(s, i, depth))
    decreases |s| - i, 0
  {
    var lit := ReadLiteral(s, i + 1, false, "");
    var row := RowOf(seen, depth);
    var pre' := pre + [Key(depth, lit.1, i)];
    var seen' := if lit.1 in row then seen[depth := row] else seen[depth := row + {lit.1}];
    var dups' := if lit.1 in row then dups + [Duplicate(lit.1, i)] else dups;
    KeyAgrees(seen, dups, pre, depth, lit.1, i);
    assert Agrees(seen', dups', pre');
    calc {
      Scan(s, i, depth, seen, dups);
      == { KeyScanStep(s, i, depth, seen, dups); }
      Scan(s, lit.0 + 1, depth, seen', dups');
      == { ScanIsRepeats(s, lit.0 + 1, depth, seen', dups', pre'); }
      Repeats(pre' + Events(s, lit.0 + 1, depth));
      == { KeyEventsStep(s, i, depth); assert pre' + Events(s, lit.0 + 1, depth) == pre + Events(s, i, depth); }
      Repeats(pre + Events(s, i, depth));
    }
  }

  /** At a key, the scan records it in its row and resumes after the closing quote. */
  lemma KeyScanStep(s: string, i: nat, depth: nat, seen: map<nat, set<string>>, dups: seq<Duplicate>)
    requires i < |s| && s[i] == '"'
    requires ReadLiteral(s, i + 1, false, "").0 < |s| && ColonAhead(s, ReadLiteral(s, i + 1, false, "").0 + 1)
    ensures var lit := ReadLiteral(s, i + 1, false, "");
      var row := RowOf(seen, depth);
      Scan(s, i, depth, seen, dups)
        == if lit.1 in row then Scan(s, lit.0 + 1, depth, seen[depth := row], dups + [Duplicate(lit.1, i)])
           else Scan(s, lit.0 + 1, depth, seen[depth := row + {lit.1}], dups)
  {
  }

  /** At a key, the events are that key followed by the events after its closing quote. */
  lemma KeyEventsStep(s: string, i: nat, depth: nat)
    requires i < |s| && s[i] == '"'
    requires ReadLiteral(s, i + 1, false, "").0 < |s| && ColonAhead(s, ReadLiteral(s, i + 1, false, "").0 + 1)
    ensures var lit := ReadLiteral(s, i + 1, false, "");
      Events(s, i, depth) == [Key(depth, lit.1, i)] + Events(s, lit.0 + 1, depth)
  {
  }

  /**
   * The scan reports exactly the keys met again at the same depth with no
   * close of that depth in between, in the order met, at their opening quotes.
   */
  lemma ScanReportsSameDepthRepeats(s: string)
    ensures Scan(s, 0, 0, map[], []) == Repeats(Events(s, 0, 0))
  {
    ScanIsRepeats(s, 0, 0, map[], [], []);
    assert [] + Events(s, 0, 0) == Events(s, 0, 0);
  }

  /** Membership form: a report names a repeated key event, and every repeated key event is reported. */
  lemma {:induction false} RepeatsMembers(evs: seq<Event>, x: Duplicate)
    ensures x in Repeats(evs) <==> exists j :: 0 <= j < |evs| && Repeated(evs, j) && x == Duplicate(evs[j].key, evs[j].position)
    decreases |evs|
  {
    if evs != [] {
      var n := |evs|;
      var p := evs[..n - 1];
      RepeatsMembers(p, x);
      forall j | 0 <= j < n - 1 ensures Repeated(p, j) == Repeated(evs, j) && p[j] == evs[j] {
        assert p[..j] == evs[..j];
      }
    }
  }

  /** A key starts at p: a closed literal there, reading as k, followed by whitespace and a colon. */
  predicate KeyAt(s: string, p: nat, k: string)
  {
    p < |s| && s[p] == '"'
    && var lit := ReadLiteral(s, p + 1, false, ""); lit.0 < |s| && ColonAhead(s, lit.0 + 1) && lit.1 == k
  }

  /** Every reported position is the opening quote of a key, and the same key starts at an earlier position. */
  lemma DuplicatesAreRepeatedKeys(s: string)
    ensures forall x :: x in Scan(s, 0, 0, map[], []) ==>
      KeyAt(s, x.position, x.key) && exists q: nat :: q < x.position && KeyAt(s, q, x.key)
  {
    ScanReportsRepeats(s, 0, 0, map[], []);
  }

  lemma {:induction false} ScanReportsRepeats(s: string, i: nat, depth: nat, seen: map<nat, set<string>>, dups: seq<Duplicate>)
    requires i <= |s|
    requires forall d, k :: d in seen && k in seen[d] ==> exists q: nat :: q < i && KeyAt(s, q, k)
    requires forall x :: x in dups ==> KeyAt(s, x.position, x.key) && exists q: nat :: q < x.position && KeyAt(s, q, x.key)
    ensures forall x :: x in Scan(s, i, depth, seen, dups) ==>
      KeyAt(s, x.position, x.key) && exists q: nat :: q < x.position && KeyAt(s, q, x.key)
    decreases |s| - i
  {
    if i < |s| {
      if s[i] == '{' {
        ScanReportsRepeats(s, i + 1, depth + 1, seen, dups);
      } else if s[i] == '}' {
        ScanReportsRepeats(s, i + 1, if depth == 0 then 0 else depth - 1, seen - {depth}, dups);
      } else if s[i] == '"' {
        var lit := ReadLiteral(s, i + 1, false, "");
        if lit.0 == |s| {
          ScanReportsRepeats(s, i + 1, depth, seen, dups);
        } else if !ColonAhead(s, lit.0 + 1) {
          ScanReportsRepeats(s, lit.0 + 1, depth, seen, dups);
        } else {
          assert KeyAt(s, i, lit.1);
          var row := if depth in seen then seen[depth] else {};
          if lit.1 in row {
            ScanReportsRepeats(s, lit.0 + 1, depth, seen[depth := row], dups + [Duplicate(lit.1, i)]);
          } else {
            ScanReportsRepeats(s, lit.0 + 1, depth, seen[depth := row + {lit.1}], dups);
          }
        }
      } else {
        ScanReportsRepeats(s, i + 1, depth, seen, dups);
      }
    }
  }

  /** Text without a quote has no keys, so nothing is reported. */
  lemma {:induction false} NoQuoteNoDuplicates(s: string, i: nat, depth: nat, seen: map<nat, set<string>>, dups: seq<Duplicate>)
    requires i <= |s|
    requires forall k :: i <= k < |s| ==> s[k] != '"'
    ensures Scan(s, i, depth, seen, dups) == dups
    decreases |s| - i
  {
    if i < |s| {
      if s[i] == '{' {
        NoQuoteNoDuplicates(s, i + 1, depth + 1, seen, dups);
      } else if s[i] == '}' {
        NoQuoteNoDuplicates(s, i + 1, if depth == 0 then 0 else depth - 1, seen - {depth}, dups);
      } else {
        NoQuoteNoDuplicates(s, i + 1, depth, seen, dups);
      }
    }
  }

  /** A key repeated in the same object is reported at its second opening quote. */
  lemma SameObjectRepeatReported()
    ensures Scan("{\"a\":1,\"a\":2}", 0, 0, map[], []) == [Duplicate("a", 7)]
  {
    var s := "{\"a\":1,\"a\":2}";
    FirstKeyRead(s);
    assert Scan(s, 4, 1, map[1 := {"a"}], []) == Scan(s, 7, 1, map[1 := {"a"}], []);
    KeyAtSeven(s);
  }

  /** The opening brace and the first key of each example. */
  lemma FirstKeyRead(s: string)
    requires |s| >= 5 && s[..5] == "{\"a\":"
    ensures Scan(s, 0, 0, map[], []) == Scan(s, 4, 1, map[1 := {"a"}], [])
  {
    assert s[0] == '{' && s[1] == '"' && s[2] == 'a' && s[3] == '"' && s[4] == ':';
    assert ReadLiteral(s, 3, false, "a") == (3, "a");
    assert "" + ['a'] == "a";
    assert ReadLiteral(s, 2, false, "") == (3, "a");
    assert ColonAhead(s, 4);
    assert Scan(s, 0, 0, map[], []) == Scan(s, 1, 1, map[], []);
    var none: map<nat, set<string>> := map[];
    var empty: set<string> := {};
    assert empty + {"a"} == {"a"};
    assert none[1 := empty + {"a"}] == map[1 := {"a"}];
  }

  lemma KeyAtSeven(s: string)
    requires s == "{\"a\":1,\"a\":2}"
    ensures Scan(s, 7, 1, map[1 := {"a"}], []) == [Duplicate("a", 7)]
  {
    assert ReadLiteral(s, 9, false, "a") == (9, "a");
    assert "" + ['a'] == "a";
    assert ReadLiteral(s, 8, false, "") == (9, "a");
    assert ColonAhead(s, 10);
    var dup := [Duplicate("a", 7)];
    var seen: map<nat, set<string>> := map[1 := {"a"}];
    assert seen[1 := seen[1]] == seen;
    assert [] + dup == dup;
    assert Scan(s, 7, 1, map[1 := {"a"}], []) == Scan(s, 10, 1, map[1 := {"a"}], dup);
    assert Scan(s, 10, 1, map[1 := {"a"}], dup) == Scan(s, 12, 1, map[1 := {"a"}], dup);
    assert Scan(s, 12, 1, map[1 := {"a"}], dup) == Scan(s, 13, 0, map[], dup);
  }

  /** The same key in a nested object is at another depth and is not reported. */
  lemma NestedRepeatNotReported()
    ensures Scan("{\"a\":{\"a\":1}}", 0, 0, map[], []) == []
  {
    var s := "{\"a\":{\"a\":1}}";
    FirstKeyRead(s);
    var outer: map<nat, set<string>> := map[1 := {"a"}];
    assert Scan(s, 4, 1, outer, []) == Scan(s, 6, 2, outer, []);
    assert ReadLiteral(s, 8, false, "a") == (8, "a");
    assert "" + ['a'] == "a";
    assert ReadLiteral(s, 7, false, "") == (8, "a");
    assert ColonAhead(s, 9);
    var empty: set<string> := {};
    var both := outer[2 := empty + {"a"}];
    assert Scan(s, 6, 2, outer, []) == Scan(s, 9, 2, both, []);
    NoQuoteNoDuplicates(s, 9, 2, both, []);
  }

  /** Closing an object forgets its keys, so a sibling object may reuse them. */
  lemma ClosedObjectForgotten()
    ensures Scan("{\"a\":1}{\"a\":2}", 0, 0, map[], []) == []
  {
    var s := "{\"a\":1}{\"a\":2}";
    FirstKeyRead(s);
    assert map[1 := {"a"}] - {1} == map[];
    assert Scan(s, 4, 1, map[1 := {"a"}], []) == Scan(s, 7, 0, map[], []);
    SiblingKey(s);
  }

  lemma SiblingKey(s: string)
    requires s == "{\"a\":1}{\"a\":2}"
    ensures Scan(s, 7, 0, map[], []) == []
  {
    assert ReadLiteral(s, 10, false, "a") == (10, "a");
    assert "" + ['a'] == "a";
    assert ReadLiteral(s, 9, false, "") == (10, "a");
    assert ColonAhead(s, 11);
    assert Scan(s, 7, 0, map[], []) == Scan(s, 8, 1, map[], []);
    var none: map<nat, set<string>> := map[];
    var empty: set<string> := {};
    assert empty + {"a"} == {"a"};
    assert none[1 := empty + {"a"}] == map[1 := {"a"}];
    assert Scan(s, 8, 1, none, []) == Scan(s, 11, 1, map[1 := {"a"}], []);
    assert Scan(s, 11, 1, map[1 := {"a"}], []) == Scan(s, 13, 1, map[1 := {"a"}], []);
  }
}
