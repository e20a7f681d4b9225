/** What the dashboard parser guarantees, stated over the model of
    `core/parser.py`. */
module ParserProperties {
  import opened Outcomes
  import opened Chars
  import opened Normalize
  import opened Patterns
  import opened Parser

  // ---------------------------------------------------------------------
  // The update stamp
  // ---------------------------------------------------------------------

  /** `DD/DD/DDDD DD:DD:DD`, with exactly one space. */
  predicate StampShaped(v: string) {
    |v| == 19 && DateAt(v, 0) && v[10] == ' ' && ClockAt(v, 11)
  }

  /** In a text with no whitespace runs, a stamp match has the one-space
      shape. */
  lemma StampShape(s: string, i: nat)
    requires i <= |s|
    requires NoSpaceRun(s) && PlainSpacesOnly(s)
    ensures StampAt(s, i).Some? ==> StampShaped(StampAt(s, i).value)
  {
    if StampAt(s, i).Some? {
      var k := SpacesEnd(s, i + |UPDATED_PREFIX|);
      var l := SpacesEnd(s, k + 10);
      assert l > k + 10 && ClockAt(s, l);
      assert IsSpace(s[k + 10]);
      assert !IsSpace(s[k + 11]);
      assert SpacesEnd(s, k + 11) == k + 11;
      assert l == k + 11;
      var v := s[k..l + 8];
      assert forall m :: 0 <= m < 19 ==> v[m] == s[k + m];
    }
  }

  /** `updated_at`, when present, is a date and a clock reading separated by
      a single space, because it is cut from the normalised text. */
  lemma UpdatedAtShape(text: string)
    ensures ExtractUpdatedAt(text).Some? ==> StampShaped(ExtractUpdatedAt(text).value)
  {
    var n := Norm(text);
    var r := SearchStampFrom(n, 0);
    if r.Some? {
      var k :| 0 <= k <= |n| && StampAt(n, k) == r;
      StampShape(n, k);
    }
  }

  // ---------------------------------------------------------------------
  // _extract_time
  // ---------------------------------------------------------------------

  /** A clock reading `DD:DD:DD` and nothing else. */
  predicate ClockReading(t: string) {
    |t| == 8 && ClockAt(t, 0)
  }

  /** The values `_extract_time` can return. */
  predicate TimeShaped(t: Option<string>) {
    t.None? || t == Some("IMEDIATO") || ClockReading(t.value)
  }

  /** The first word-bounded clock reading wins, even over "IMEDIATO";
      without one, "IMEDIATO" is returned exactly when the normalised text
      contains it. */
  lemma ExtractTimeSpec(text: string)
    ensures (exists k :: BoundedClockAt(text, k)) ==>
      exists k :: && BoundedClockAt(text, k)
                  && (forall j :: 0 <= j < k ==> !BoundedClockAt(text, j))
                  && ExtractTime(text) == Some(text[k..k + 8])
    ensures (forall k :: !BoundedClockAt(text, k)) ==>
      (ExtractTime(text) == Some("IMEDIATO") <==> Contains(Norm(text), "IMEDIATO")) &&
      (ExtractTime(text).None? <==> !Contains(Norm(text), "IMEDIATO"))
    ensures TimeShaped(ExtractTime(text))
  {
    match FirstClock(text)
    case Some(k) =>
      var t := text[k..k + 8];
      assert ExtractTime(text) == Some(t);
      assert forall m :: 0 <= m < 8 ==> t[m] == text[k + m];
      assert ClockReading(t);
    case None =>
  }

  // ---------------------------------------------------------------------
  // _extract_int_candidates and _pick_patient_count
  // ---------------------------------------------------------------------

  /** The integer a token spans. */
  function TokenValue(s: string, a: int, b: int): nat
    requires TokenAt(s, a, b)
  {
    var d := s[a..b];
    assert forall k :: 0 <= k < |d| ==> d[k] == s[a + k];
    DigitsValue(d)
  }

  /** The spans `[a, b)` of the tokens that `TokensFrom(s, i)` converts, in
      order: each a word-bounded run of digits at or after `i`. */
  function TokenSpans(s: string, i: nat): (r: seq<(int, int)>)
    requires i <= |s|
    ensures forall m :: 0 <= m < |r| ==> i <= r[m].0 && TokenAt(s, r[m].0, r[m].1)
    decreases |s| - i
  {
    if i == |s| then []
    else if IsDigit(s[i]) && (i == 0 || !IsWordChar(s[i - 1])) then
      var j := RunEnd(s, i);
      if j == |s| || !IsWordChar(s[j]) then
        assert TokenAt(s, i, j);
        [(i, j)] + TokenSpans(s, j)
      else TokenSpans(s, j)
    else TokenSpans(s, i + 1)
  }

  /** `vs` are the values of the token spans `sp`, one for one. */
  predicate ValuesOf(s: string, vs: seq<nat>, sp: seq<(int, int)>) {
    && |vs| == |sp|
    && forall m :: 0 <= m < |sp| ==> TokenAt(s, sp[m].0, sp[m].1) && vs[m] == TokenValue(s, sp[m].0, sp[m].1)
  }

  /** A token in front of the spans puts its value in front of the values. */
  lemma ValuesOfCons(s: string, a: int, b: int, vs: seq<nat>, sp: seq<(int, int)>)
    requires TokenAt(s, a, b) && ValuesOf(s, vs, sp)
    ensures ValuesOf(s, [TokenValue(s, a, b)] + vs, [(a, b)] + sp)
  {
    var vs', sp' := [TokenValue(s, a, b)] + vs, [(a, b)] + sp;
    forall m | 0 <= m < |sp'|
      ensures TokenAt(s, sp'[m].0, sp'[m].1) && vs'[m] == TokenValue(s, sp'[m].0, sp'[m].1)
    {
      if m > 0 {
        assert vs'[m] == vs[m - 1] && sp'[m] == sp[m - 1];
      }
    }
  }

  /** Every value found from `i` on is the value of its span. */
  lemma {:induction false} TokensSound(s: string, i: nat)
    requires i <= |s|
    ensures ValuesOf(s, TokensFrom(s, i), TokenSpans(s, i))
    decreases |s| - i
  {
    if i < |s| {
      if IsDigit(s[i]) && (i == 0 || !IsWordChar(s[i - 1])) {
        var j := RunEnd(s, i);
        TokensSound(s, j);
        if j == |s| || !IsWordChar(s[j]) {
          assert TokenAt(s, i, j);
          assert TokenValue(s, i, j) == DigitsValue(s[i..j]);
          ValuesOfCons(s, i, j, TokensFrom(s, j), TokenSpans(s, j));
        }
      } else {
        TokensSound(s, i + 1);
      }
    }
  }

  /** A token that starts at `a` ends where the run of digits from `a` ends. */
  lemma TokenEndsAtRunEnd(s: string, a: int, b: int)
    requires TokenAt(s, a, b)
    ensures b == RunEnd(s, a)
  {
  }

  /** No token starts strictly inside a run of digits. */
  lemma NoTokenInsideRun(s: string, i: nat, a: int, b: int)
    requires i <= |s| && i < a < RunEnd(s, i)
    ensures !TokenAt(s, a, b)
  {
    assert IsDigit(s[a - 1]);
  }

  /** Each span ends at or before the next one starts. */
  ghost predicate InOrder(sp: seq<(int, int)>) {
    forall m, n :: 0 <= m < n < |sp| && n == m + 1 ==> sp[m].1 <= sp[n].0
  }

  /** The spans come left to right without overlapping. */
  lemma {:induction false} SpansOrdered(s: string, i: nat)
    requires i <= |s|
    ensures InOrder(TokenSpans(s, i))
    decreases |s| - i
  {
    if i < |s| {
      if IsDigit(s[i]) && (i == 0 || !IsWordChar(s[i - 1])) {
        var j := RunEnd(s, i);
        SpansOrdered(s, j);
        if j == |s| || !IsWordChar(s[j]) {
          var rest := TokenSpans(s, j);
          var r := [(i, j)] + rest;
          assert r == TokenSpans(s, i);
          forall m, n | 0 <= m < n < |r| && n == m + 1
            ensures r[m].1 <= r[n].0
          {
            if m > 0 {
              assert r[m] == rest[m - 1] && r[n] == rest[n - 1];
            } else {
              assert r[1] == rest[0];
            }
          }
        }
      } else {
        SpansOrdered(s, i + 1);
        assert TokenSpans(s, i) == TokenSpans(s, i + 1);
      }
    }
  }

  /** Every token at or after `i` is one of the spans: `findall` misses none. */
  lemma {:induction false} SpansComplete(s: string, i: nat)
    requires i <= |s|
    ensures forall a, b :: i <= a && TokenAt(s, a, b) ==> (a, b) in TokenSpans(s, i)
    decreases |s| - i
  {
    if i < |s| {
      if IsDigit(s[i]) && (i == 0 || !IsWordChar(s[i - 1])) {
        var j := RunEnd(s, i);
        SpansComplete(s, j);
        var rest := TokenSpans(s, j);
        var r := TokenSpans(s, i);
        assert forall x :: x in rest ==> x in r;
        forall a, b | i <= a && TokenAt(s, a, b)
          ensures (a, b) in r
        {
          if a == i {
            TokenEndsAtRunEnd(s, a, b);
            assert r[0] == (i, j);
          } else if a < j {
            NoTokenInsideRun(s, i, a, b);
          } else {
            assert (a, b) in rest;
          }
        }
      } else {
        SpansComplete(s, i + 1);
      }
    }
  }

  /** The spans come left to right without overlapping, and every token at or
      after `i` is one of them: `findall` misses none and keeps their order. */
  lemma SpansOrderedComplete(s: string, i: nat)
    requires i <= |s|
    ensures var r := TokenSpans(s, i);
      && (forall m :: 0 <= m < |r| - 1 ==> r[m].1 <= r[m + 1].0)
      && (forall a, b :: i <= a && TokenAt(s, a, b) ==> (a, b) in r)
  {
    var r := TokenSpans(s, i);
    SpansOrdered(s, i);
    SpansComplete(s, i);
    forall m | 0 <= m < |r| - 1
      ensures r[m].1 <= r[m + 1].0
    {
      assert InOrder(r);
      var n := m + 1;
      assert r[m].1 <= r[n].0;
    }
  }

  /** The candidates of a text are the values of the word-bounded runs of
      digits of the text with its clock readings replaced by spaces, and that
      text holds no clock reading: no digit of a `DD:DD:DD` is ever taken for
      a count. */
  lemma IntCandidatesSound(text: string)
    ensures forall k :: !ClockAt(StripClocks(text), k)
    ensures var spans := TokenSpans(StripClocks(text), 0);
      && |IntCandidates(text)| == |spans|
      && forall m :: 0 <= m < |spans| ==>
           TokenAt(StripClocks(text), spans[m].0, spans[m].1) &&
           IntCandidates(text)[m] == TokenValue(StripClocks(text), spans[m].0, spans[m].1)
    ensures var spans := TokenSpans(StripClocks(text), 0);
      && (forall m :: 0 <= m < |spans| - 1 ==> spans[m].1 <= spans[m + 1].0)
      && (forall a, b :: TokenAt(StripClocks(text), a, b) ==> (a, b) in spans)
  {
    NoClockLeft(text);
    TokensSound(StripClocks(text), 0);
    SpansOrderedComplete(StripClocks(text), 0);
  }

  /** The filter keeps the plausible values, in order. */
  lemma {:induction false} PlausiblesFirst(xs: seq<int>)
    ensures Plausibles(xs) == [] <==> forall i :: 0 <= i < |xs| ==> !Plausible(xs[i])
    ensures Plausibles(xs) != [] ==>
      Plausible(Plausibles(xs)[0]) &&
      exists i :: 0 <= i < |xs| && xs[i] == Plausibles(xs)[0] && forall j :: 0 <= j < i ==> !Plausible(xs[j])
  {
    if xs != [] {
      var tail := xs[1..];
      PlausiblesFirst(tail);
      assert forall i :: 0 <= i < |tail| ==> tail[i] == xs[i + 1];
      if !Plausible(xs[0]) && Plausibles(tail) != [] {
        var i :| 0 <= i < |tail| && tail[i] == Plausibles(tail)[0] && forall j :: 0 <= j < i ==> !Plausible(tail[j]);
        assert xs[i + 1] == Plausibles(xs)[0];
        assert forall j :: 0 <= j < i + 1 ==> !Plausible(xs[j]) by {
          forall j | 0 <= j < i + 1
            ensures !Plausible(xs[j])
          {
            if j > 0 {
              assert xs[j] == tail[j - 1];
            }
          }
        }
      }
    }
  }

  /** `_pick_patient_count` returns nothing exactly when no candidate is
      plausible, and otherwise the first plausible candidate: a value in
      0..9999 that is not a year 2020..2026. */
  lemma PatientCountSpec(texts: seq<string>)
    ensures PatientCount(texts).None? <==>
      forall i :: 0 <= i < |AllCandidates(texts)| ==> !Plausible(AllCandidates(texts)[i])
    ensures PatientCount(texts).Some? ==>
      var all := AllCandidates(texts);
      var n := PatientCount(texts).value;
      && 0 <= n <= 9999 && !(2020 <= n <= 2026)
      && exists i :: 0 <= i < |all| && all[i] == n && forall j :: 0 <= j < i ==> !Plausible(all[j])
  {
    PlausiblesFirst(AllCandidates(texts));
  }

  lemma GatherSnoc(texts: seq<string>, t: string, f: string -> seq<int>)
    ensures Gather(texts + [t], f) == Gather(texts, f) + f(t)
  {
    assert (texts + [t])[..|texts|] == texts;
  }

  lemma {:induction false} GatherAppend(a: seq<string>, b: seq<string>, f: string -> seq<int>)
    ensures Gather(a + b, f) == Gather(a, f) + Gather(b, f)
    decreases |b|
  {
    if b == [] {
      assert a + b == a;
    } else {
      var front := b[..|b| - 1];
      var last := b[|b| - 1];
      calc {
        Gather(a + b, f);
      == { assert a + b == (a + front) + [last]; }
        Gather((a + front) + [last], f);
      == { GatherSnoc(a + front, last, f); }
        Gather(a + front, f) + f(last);
      == { GatherAppend(a, front, f); }
        (Gather(a, f) + Gather(front, f)) + f(last);
      == { assert b == front + [last]; GatherSnoc(front, last, f); }
        Gather(a, f) + Gather(b, f);
      }
    }
  }

  lemma {:induction false} PlausiblesAppend(a: seq<int>, b: seq<int>)
    ensures Plausibles(a + b) == Plausibles(a) + Plausibles(b)
  {
    if a == [] {
      assert a + b == b;
    } else {
      assert (a + b)[1..] == a[1..] + b;
      PlausiblesAppend(a[1..], b);
    }
  }

  /** The texts are tried in order: once the first texts yield a count, the
      later ones are never consulted. */
  lemma EarlierTextsWin(first: seq<string>, later: seq<string>)
    requires PatientCount(first).Some?
    ensures PatientCount(first + later) == PatientCount(first)
  {
    GatherAppend(first, later, TextCandidates);
    PlausiblesAppend(AllCandidates(first), AllCandidates(later));
  }

  /** The digits of a clock reading are never taken for a count: in
      "00:10:00 7" the count is 7, where without the stripping it would be 0. */
  lemma ClockDigitsIgnored()
    ensures PatientCount(["00:10:00 7"]) == Some(7)
  {
    var t := "00:10:00 7";
    assert ClockAt(t, 0);
    var u := t[8..];
    assert u == " 7";
    assert StripClocks(u[1..]) == "7";
    assert StripClocks(u) == " 7";
    var s := StripClocks(t);
    assert s == "  7";
    assert RunEnd(s, 2) == 3;
    assert DigitsValue(s[2..3]) == 7;
    assert TokensFrom(s, 2) == [7];
    assert IntCandidates(t) == [7];
    assert AllCandidates([t]) == [7] by {
      var ts: seq<string> := [t];
      assert ts[..0] == [] && ts[0] == t && t != "";
      assert TextCandidates(t) == [7];
      assert Gather(ts, TextCandidates) == Gather(ts[..0], TextCandidates) + TextCandidates(t);
    }
  }

  // ---------------------------------------------------------------------
  // The labelled elements
  // ---------------------------------------------------------------------

  /** The labelled nodes are a filter over the elements in document order:
      one element gives its node exactly when its stripped label is not
      blank, and the nodes of a concatenation are the nodes of each part. */
  lemma {:induction false} AriaNodesAppend(a: seq<Element>, b: seq<Element>)
    ensures AriaNodes(a + b) == AriaNodes(a) + AriaNodes(b)
    ensures |a| == 1 ==>
      AriaNodes(a) == var aria := Strip(a[0].ariaLabel.GetOr(""));
                      if aria != "" then [Node(aria, a[0].text)] else []
    decreases |a|
  {
    if a == [] {
      assert a + b == b;
    } else {
      assert (a + b)[0] == a[0] && (a + b)[1..] == a[1..] + b;
      AriaNodesAppend(a[1..], b);
      if |a| == 1 {
        assert a[1..] == [];
      }
    }
  }

  // ---------------------------------------------------------------------
  // The scalar cards: the last matching node wins
  // ---------------------------------------------------------------------

  predicate IsScalar(a: Action) {
    a == SetUnidade || a == SetRegulacao || a == SetAtMedico
  }

  /** The card field an action writes. */
  function ScalarOf(m: Metrics, a: Action): Option<int>
    requires IsScalar(a)
  {
    if a == SetUnidade then m.pacientesUnidade
    else if a == SetRegulacao then m.pacientesRegulacao
    else m.pacientesAtMedico
  }

  /** The index of the last element satisfying `p`, or -1. */
  function LastIndex<T>(xs: seq<T>, p: T -> bool): (r: int)
    ensures -1 <= r < |xs|
    ensures r >= 0 ==> p(xs[r])
    ensures forall j :: r < j < |xs| ==> !p(xs[j])
  {
    if xs == [] then -1
    else if p(xs[|xs| - 1]) then |xs| - 1
    else
      var front := xs[..|xs| - 1];
      var k := LastIndex(front, p);
      assert forall j :: k < j < |front| ==> front[j] == xs[j];
      k
  }

  /** The index of the last node that takes branch `a`, or -1. */
  function LastMatch(nodes: seq<Node>, a: Action): (r: int)
    ensures -1 <= r < |nodes|
    ensures r >= 0 ==> DecideNode(nodes[r]) == a
    ensures forall j :: r < j < |nodes| ==> DecideNode(nodes[j]) != a
  {
    LastIndex(nodes, (n: Node) => DecideNode(n) == a)
  }

  /** The step of the main pass on a card field. */
  lemma ApplyNodeScalar(out: Metrics, n: Node, a: Action)
    requires IsScalar(a)
    ensures ScalarOf(ApplyNode(out, n), a) == if DecideNode(n) == a then NodeCount(n) else ScalarOf(out, a)
  {
  }

  /** A card field holds the count of the last node that matched its
      keyword, whatever earlier nodes found, or its start value when no
      node matched. */
  lemma {:induction false} ScalarLastWins(out: Metrics, nodes: seq<Node>, a: Action)
    requires IsScalar(a)
    ensures var k := LastMatch(nodes, a);
      ScalarOf(MainPass(out, nodes), a) == if k >= 0 then NodeCount(nodes[k]) else ScalarOf(out, a)
  {
    if nodes != [] {
      var front := nodes[..|nodes| - 1];
      var n := nodes[|nodes| - 1];
      ScalarLastWins(out, front, a);
      ApplyNodeScalar(MainPass(out, front), n, a);
      var k := LastMatch(front, a);
      assert LastMatch(nodes, a) == if DecideNode(n) == a then |nodes| - 1 else k;
      if DecideNode(n) != a && k >= 0 {
        assert front[k] == nodes[k];
      }
    }
  }

  /** No overwrite guard: a later node with the card's keyword replaces the
      field, with nothing when it holds no plausible count. */
  lemma LaterMatchOverwrites(out: Metrics, nodes: seq<Node>, n: Node)
    requires IsScalar(DecideNode(n))
    ensures ScalarOf(MainPass(out, nodes + [n]), DecideNode(n)) == NodeCount(n)
    ensures NodeCount(n).None? ==> ScalarOf(MainPass(out, nodes + [n]), DecideNode(n)).None?
  {
    assert (nodes + [n])[..|nodes|] == nodes;
    ApplyNodeScalar(MainPass(out, nodes), n, DecideNode(n));
  }

  /** The cards of the parse: the last matching node of the document decides
      each card, and the fallback never touches them. */
  lemma ParseScalars(doc: Document, a: Action)
    requires IsScalar(a)
    ensures var nodes := AriaNodes(doc.elements);
      var k := LastMatch(nodes, a);
      ScalarOf(Parse(doc), a) == if k >= 0 then NodeCount(nodes[k]) else None
  {
    ScalarLastWins(Initial(doc.text), AriaNodes(doc.elements), a);
  }

  // ---------------------------------------------------------------------
  // The classification entries: the first non-null value wins
  // ---------------------------------------------------------------------

  /** What node `n` offers colour `c`: its count and its wait when it is a
      classification node of that colour. */
  function OfferedCount(n: Node, c: string): Option<int> {
    if DecideNode(n) == ClassifyAs(c) then NodeCount(n) else None
  }

  function OfferedTempo(n: Node, c: string): Option<string> {
    if DecideNode(n) == ClassifyAs(c) then NodeTempo(n) else None
  }

  /** The first count offered to `c`, scanning the nodes from the front. */
  function FirstCount(nodes: seq<Node>, c: string): Option<int> {
    if nodes == [] then None else FirstSome(OfferedCount(nodes[0], c), FirstCount(nodes[1..], c))
  }

  /** The first wait offered to `c`, scanning the nodes from the front. */
  function FirstTempo(nodes: seq<Node>, c: string): Option<string> {
    if nodes == [] then None else FirstSome(OfferedTempo(nodes[0], c), FirstTempo(nodes[1..], c))
  }

  lemma {:induction false} FirstCountSnoc(nodes: seq<Node>, n: Node, c: string)
    ensures FirstCount(nodes + [n], c) == FirstSome(FirstCount(nodes, c), OfferedCount(n, c))
    ensures FirstTempo(nodes + [n], c) == FirstSome(FirstTempo(nodes, c), OfferedTempo(n, c))
  {
    if nodes == [] {
      assert [n][1..] == [];
    } else {
      assert (nodes + [n])[1..] == nodes[1..] + [n];
      FirstCountSnoc(nodes[1..], n, c);
    }
  }

  /** The step of the main pass on one colour's entry. */
  lemma ApplyNodeSlot(out: Metrics, n: Node, c: string)
    ensures SlotOf(ApplyNode(out, n), c) ==
      Slot(FirstSome(SlotOf(out, c).pacientes, OfferedCount(n, c)),
           FirstSome(SlotOf(out, c).tempoMedio, OfferedTempo(n, c)))
  {
    var act := DecideNode(n);
    if act.ClassifyAs? && act.color != c {
      assert ApplyNode(out, n).classificacoes ==
        out.classificacoes[act.color := Merge(SlotOf(out, act.color), NodeCount(n), NodeTempo(n))];
    }
  }

  /** Each field of a colour's entry is the first non-null value offered to
      it, in document order; a value once set is never replaced. */
  lemma {:induction false} SlotFirstWins(out: Metrics, nodes: seq<Node>, c: string)
    ensures SlotOf(MainPass(out, nodes), c) ==
      Slot(FirstSome(SlotOf(out, c).pacientes, FirstCount(nodes, c)),
           FirstSome(SlotOf(out, c).tempoMedio, FirstTempo(nodes, c)))
  {
    if nodes != [] {
      var front := nodes[..|nodes| - 1];
      var n := nodes[|nodes| - 1];
      assert nodes == front + [n];
      SlotFirstWins(out, front, c);
      FirstCountSnoc(front, n, c);
      ApplyNodeSlot(MainPass(out, front), n, c);
    }
  }

  /** A filled field of an entry survives every later node. */
  lemma SlotNeverOverwritten(out: Metrics, nodes: seq<Node>, n: Node, c: string)
    ensures SlotOf(MainPass(out, nodes), c).pacientes.Some? ==>
      SlotOf(MainPass(out, nodes + [n]), c).pacientes == SlotOf(MainPass(out, nodes), c).pacientes
    ensures SlotOf(MainPass(out, nodes), c).tempoMedio.Some? ==>
      SlotOf(MainPass(out, nodes + [n]), c).tempoMedio == SlotOf(MainPass(out, nodes), c).tempoMedio
  {
    assert (nodes + [n])[..|nodes|] == nodes;
    ApplyNodeSlot(MainPass(out, nodes), n, c);
  }

  // ---------------------------------------------------------------------
  // The fallback pass
  // ---------------------------------------------------------------------

  /** The fallback fills a colour's entry exactly when its count is still
      empty, the colour occurs in the normalised text and the raw window
      around that index mentions CLASSIF, RISCO or TEMPO: the count is then
      taken from the window and a non-empty wait is kept. In every other
      case the result is left as it was. */
  lemma FallbackColorSpec(out: Metrics, text: string, c: string)
    requires c in out.classificacoes
    ensures var r := FallbackColor(out, text, c);
      var slot := out.classificacoes[c];
      var idx := Find(Norm(text), c);
      if slot.pacientes.None? && idx != -1 &&
         var wn := Norm(Window(text, idx));
         Contains(wn, "CLASSIF") || Contains(wn, "RISCO") || Contains(wn, "TEMPO")
      then
        var w := Window(text, idx);
        && r.classificacoes == out.classificacoes[c := Slot(PatientCount([w]), OrElse(slot.tempoMedio, ExtractTime(w)))]
        && r.(classificacoes := out.classificacoes) == out
      else r == out
    ensures var r := FallbackColor(out, text, c);
      var slot := out.classificacoes[c];
      slot.tempoMedio.Some? && slot.tempoMedio.value != "" ==> r.classificacoes[c].tempoMedio == slot.tempoMedio
  {
  }

  /** An entry whose count the main pass filled passes the fallback
      unchanged. */
  lemma {:induction false} FallbacksKeepFilled(out: Metrics, text: string, k: nat, c: string)
    requires k <= |COLORS|
    requires COLOR_SET <= out.classificacoes.Keys && c in out.classificacoes
    requires out.classificacoes[c].pacientes.Some?
    ensures Fallbacks(out, text, k).classificacoes[c] == out.classificacoes[c]
  {
    if k > 0 {
      FallbacksKeepFilled(out, text, k - 1, c);
    }
  }

  /** A non-empty wait is never replaced by the fallback. */
  lemma {:induction false} FallbacksKeepTempo(out: Metrics, text: string, k: nat, c: string)
    requires k <= |COLORS|
    requires COLOR_SET <= out.classificacoes.Keys && c in out.classificacoes
    requires out.classificacoes[c].tempoMedio.Some? && out.classificacoes[c].tempoMedio.value != ""
    ensures Fallbacks(out, text, k).classificacoes[c].tempoMedio == out.classificacoes[c].tempoMedio
  {
    if k > 0 {
      FallbacksKeepTempo(out, text, k - 1, c);
      var prev := Fallbacks(out, text, k - 1);
      FallbackColorSpec(prev, text, COLORS[k - 1]);
    }
  }

  // ---------------------------------------------------------------------
  // Every value of the result is one the extractors can produce
  // ---------------------------------------------------------------------

  predicate CountOk(n: Option<int>) {
    n.None? || Plausible(n.value)
  }

  /** Every count is empty or plausible, every wait is empty, "IMEDIATO" or
      a clock reading. */
  predicate WellFormed(m: Metrics) {
    && CountOk(m.pacientesUnidade) && CountOk(m.pacientesRegulacao) && CountOk(m.pacientesAtMedico)
    && forall c :: c in m.classificacoes ==>
         CountOk(m.classificacoes[c].pacientes) && TimeShaped(m.classificacoes[c].tempoMedio)
  }

  lemma CountOkOf(texts: seq<string>)
    ensures CountOk(PatientCount(texts))
  {
    PatientCountSpec(texts);
  }

  lemma NodeTempoShaped(n: Node)
    ensures TimeShaped(NodeTempo(n))
  {
    ExtractTimeSpec(n.ariaRaw);
    ExtractTimeSpec(n.elText);
    ExtractTimeSpec(Norm(n.ariaRaw));
    ExtractTimeSpec(Norm(n.elText));
  }

  lemma ApplyNodeKeeps(out: Metrics, n: Node)
    requires WellFormed(out)
    ensures WellFormed(ApplyNode(out, n))
  {
    CountOkOf([n.ariaRaw, n.elText]);
    match DecideNode(n)
    case ClassifyAs(c0) =>
      var prev := SlotOf(out, c0);
      var slot := Merge(prev, NodeCount(n), NodeTempo(n));
      var r := ApplyNode(out, n);
      assert r.classificacoes == out.classificacoes[c0 := slot];
      assert CountOk(slot.pacientes) && TimeShaped(slot.tempoMedio) by {
        NodeTempoShaped(n);
        assert CountOk(prev.pacientes) && TimeShaped(prev.tempoMedio);
      }
    case _ =>
  }

  lemma {:induction false} MainPassKeeps(out: Metrics, nodes: seq<Node>)
    requires WellFormed(out)
    ensures WellFormed(MainPass(out, nodes))
  {
    if nodes != [] {
      MainPassKeeps(out, nodes[..|nodes| - 1]);
      ApplyNodeKeeps(MainPass(out, nodes[..|nodes| - 1]), nodes[|nodes| - 1]);
    }
  }

  lemma FallbackColorKeeps(out: Metrics, text: string, c: string)
    requires c in out.classificacoes
    requires WellFormed(out)
    ensures WellFormed(FallbackColor(out, text, c))
  {
    var idx := Find(Norm(text), c);
    var r := FallbackColor(out, text, c);
    if out.classificacoes[c].pacientes.None? && idx != -1 {
      var w := Window(text, idx);
      CountOkOf([w]);
      ExtractTimeSpec(w);
      forall d | d in r.classificacoes
        ensures CountOk(r.classificacoes[d].pacientes) && TimeShaped(r.classificacoes[d].tempoMedio)
      {
        if d != c {
          assert r.classificacoes[d] == out.classificacoes[d];
        }
      }
    }
  }

  lemma {:induction false} FallbacksKeep(out: Metrics, text: string, k: nat)
    requires k <= |COLORS|
    requires COLOR_SET <= out.classificacoes.Keys
    requires WellFormed(out)
    ensures WellFormed(Fallbacks(out, text, k))
  {
    if k > 0 {
      FallbacksKeep(out, text, k - 1);
      FallbackColorKeeps(Fallbacks(out, text, k - 1), text, COLORS[k - 1]);
    }
  }

  /** For any document: exactly the five colour keys, every count empty or
      plausible, every wait empty, "IMEDIATO" or a clock reading. */
  lemma ParseWellFormed(doc: Document)
    ensures Parse(doc).classificacoes.Keys == COLOR_SET
    ensures WellFormed(Parse(doc))
  {
    var init := Initial(doc.text);
    MainPassKeeps(init, AriaNodes(doc.elements));
    FallbacksKeep(MainPass(init, AriaNodes(doc.elements)), doc.text, |COLORS|);
  }

  /** The fallback respects the main pass: a count it found stays, with its
      entry, and a wait it found stays. */
  lemma ParseRespectsMainPass(doc: Document, c: string)
    requires c in COLOR_SET
    ensures var m := MainPass(Initial(doc.text), AriaNodes(doc.elements));
      && (m.classificacoes[c].pacientes.Some? ==> Parse(doc).classificacoes[c] == m.classificacoes[c])
      && (m.classificacoes[c].tempoMedio.Some? && m.classificacoes[c].tempoMedio.value != "" ==>
            Parse(doc).classificacoes[c].tempoMedio == m.classificacoes[c].tempoMedio)
  {
    var m := MainPass(Initial(doc.text), AriaNodes(doc.elements));
    if m.classificacoes[c].pacientes.Some? {
      FallbacksKeepFilled(m, doc.text, |COLORS|, c);
    }
    if m.classificacoes[c].tempoMedio.Some? && m.classificacoes[c].tempoMedio.value != "" {
      FallbacksKeepTempo(m, doc.text, |COLORS|, c);
    }
  }
}
