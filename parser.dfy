/** The dashboard parser (`core/parser.py`). The markup itself is not parsed
    here: a document is given as the list of its elements, each with its
    `aria-label` (if any) and its own text, together with the text of the
    whole document. */
module Parser {
  import opened Outcomes
  import opened Chars
  import opened Normalize
  import opened Patterns

  // ---------------------------------------------------------------------
  // Data model
  // ---------------------------------------------------------------------

  /** The five risk-classification colours, in the order they are tried. */
  const COLORS: seq<string> := ["AZUL", "VERDE", "AMARELO", "LARANJA", "VERMELHO"]

  const COLOR_SET: set<string> := {"AZUL", "VERDE", "AMARELO", "LARANJA", "VERMELHO"}

  lemma ColorSetIsColors()
    ensures forall c :: c in COLOR_SET <==> c in COLORS
  {
  }

  /** One colour's entry: a patient count and an average wait. */
  datatype Slot = Slot(pacientes: Option<int>, tempoMedio: Option<string>)

  const EMPTY_SLOT: Slot := Slot(None, None)

  /** The parse result: the update stamp, the three patient counts of the
      cards and the classification table. */
  datatype Metrics = Metrics(
    updatedAt: Option<string>,
    pacientesUnidade: Option<int>,
    pacientesRegulacao: Option<int>,
    pacientesAtMedico: Option<int>,
    classificacoes: map<string, Slot>)

  /** An element of the markup: its `aria-label` attribute, if present, and
      its text (`get_text(" ", strip=True)`). */
  datatype Element = Element(ariaLabel: Option<string>, text: string)

  /** A parsed document: its elements in document order and its whole text. */
  datatype Document = Document(elements: seq<Element>, text: string)

  /** An element with a non-blank label: the stripped label and the text. */
  datatype Node = Node(ariaRaw: string, elText: string)

  // ---------------------------------------------------------------------
  // Field extractors
  // ---------------------------------------------------------------------

  /** `_extract_updated_at`: the stamp after "ATUALIZADO EM" in the
      normalised whole text. */
  function ExtractUpdatedAt(text: string): (r: Option<string>)
    ensures r.None? <==> forall k :: 0 <= k <= |Norm(text)| ==> StampAt(Norm(text), k).None?
  {
    SearchStampFrom(Norm(text), 0)
  }

  /** `_extract_time`: the first word-bounded clock reading of the raw text,
      else "IMEDIATO" when the normalised text contains it, else nothing. */
  function ExtractTime(text: string): (r: Option<string>)
    ensures r.Some? ==> r.value == "IMEDIATO" || exists k :: BoundedClockAt(text, k) && r.value == text[k..k + 8]
    ensures r.Some? ==> r.value == "IMEDIATO" || |r.value| == 8
  {
    match FirstClock(text)
    case Some(k) => Some(text[k..k + 8])
    case None => if Contains(Norm(text), "IMEDIATO") then Some("IMEDIATO") else None
  }

  /** Python's `a or b` on optional strings: `None` and "" are false. */
  function OrElse(a: Option<string>, b: Option<string>): Option<string>
  {
    if a.Some? && a.value != "" then a else b
  }

  /** A count the parser accepts: within 0..9999 and not a year 2020..2026. */
  predicate Plausible(n: int) {
    0 <= n <= 9999 && !(2020 <= n <= 2026)
  }

  /** The candidates one text contributes; an empty text contributes none. */
  function TextCandidates(t: string): seq<int> {
    if t != "" then IntCandidates(t) else []
  }

  /** What `f` yields for each text, concatenated in order. */
  function Gather(texts: seq<string>, f: string -> seq<int>): seq<int>
  {
    if texts == [] then []
    else Gather(texts[..|texts| - 1], f) + f(texts[|texts| - 1])
  }

  /** The integer candidates of all the texts, in order. */
  function AllCandidates(texts: seq<string>): seq<int>
  {
    Gather(texts, TextCandidates)
  }

  /** `[n for n in xs if 0 <= n <= 9999 and n not in (2020, ..., 2026)]`. */
  function Plausibles(xs: seq<int>): (r: seq<int>)
    ensures forall i :: 0 <= i < |r| ==> Plausible(r[i])
  {
    if xs == [] then []
    else if Plausible(xs[0]) then [xs[0]] + Plausibles(xs[1..])
    else Plausibles(xs[1..])
  }

  /** `_pick_patient_count(*texts)`: the first plausible candidate. */
  function PatientCount(texts: seq<string>): (r: Option<int>)
    ensures r.Some? ==> Plausible(r.value)
  {
    var filtered := Plausibles(AllCandidates(texts));
    if filtered == [] then None else Some(filtered[0])
  }

  /** `_pick_patient_count`, as the source writes it: a loop that gathers the
      candidates of each non-empty text, then the filter. */
  method PickPatientCount(texts: seq<string>) returns (r: Option<int>)
    ensures r == PatientCount(texts)
  {
    var all: seq<int> := [];
    var i := 0;
    while i < |texts|
      invariant 0 <= i <= |texts|
      invariant all == AllCandidates(texts[..i])
    {
      var t := texts[i];
      assert texts[..i + 1][..i] == texts[..i];
      if t != "" {
        all := all + IntCandidates(t);
      }
      i := i + 1;
    }
    assert texts[..i] == texts;
    var filtered := Plausibles(all);
    r := if filtered == [] then None else Some(filtered[0]);
  }

  // ---------------------------------------------------------------------
  // The elements with a label (`_iter_aria_nodes`)
  // ---------------------------------------------------------------------

  /** Every element whose stripped `aria-label` is non-empty, in order. */
  function AriaNodes(elements: seq<Element>): (r: seq<Node>)
    ensures |r| <= |elements|
    ensures forall i :: 0 <= i < |r| ==> r[i].ariaRaw != ""
  {
    if elements == [] then []
    else
      var aria := Strip(elements[0].ariaLabel.GetOr(""));
      var rest := AriaNodes(elements[1..]);
      if aria != "" then [Node(aria, elements[0].text)] + rest else rest
  }

  // ---------------------------------------------------------------------
  // What one node is about
  // ---------------------------------------------------------------------

  /** A keyword appears in the normalised label or the normalised text. */
  predicate Has(aria: string, elN: string, keyword: string) {
    Contains(aria, keyword) || Contains(elN, keyword)
  }

  /** The first colour, in `COLORS` order, from index `k` on, that appears. */
  function FirstColorFrom(aria: string, elN: string, k: nat): (r: Option<string>)
    requires k <= |COLORS|
    ensures r.Some? ==>
      exists j :: k <= j < |COLORS| && r.value == COLORS[j] &&
        Has(aria, elN, COLORS[j]) && forall i :: k <= i < j ==> !Has(aria, elN, COLORS[i])
    ensures r.None? ==> forall j :: k <= j < |COLORS| ==> !Has(aria, elN, COLORS[j])
    decreases |COLORS| - k
  {
    if k == |COLORS| then None
    else if Has(aria, elN, COLORS[k]) then Some(COLORS[k])
    else FirstColorFrom(aria, elN, k + 1)
  }

  /** The colour of a node: the first of `COLORS` in its label or text. */
  function FirstColor(aria: string, elN: string): (r: Option<string>)
    ensures r.Some? ==> r.value in COLOR_SET
    ensures r.Some? ==>
      exists j :: 0 <= j < |COLORS| && r.value == COLORS[j] &&
        Has(aria, elN, COLORS[j]) && forall i :: 0 <= i < j ==> !Has(aria, elN, COLORS[i])
    ensures r.None? ==> forall j :: 0 <= j < |COLORS| ==> !Has(aria, elN, COLORS[j])
  {
    FirstColorFrom(aria, elN, 0)
  }

  /** The classification trigger: CLASSIF, RISCO, TEMPO or PACIENT. */
  predicate Gate(aria: string, elN: string) {
    || Has(aria, elN, "CLASSIF") || Has(aria, elN, "RISCO")
    || Has(aria, elN, "TEMPO") || Has(aria, elN, "PACIENT")
  }

  /** Which branch of the main pass a node takes. */
  datatype Action = SetUnidade | SetRegulacao | SetAtMedico | ClassifyAs(color: string) | Skip

  /** The physician-queue card test: ATENDIMENTO and MEDICO, and PACIENT or
      AGUARD. */
  predicate AtMedicoCard(aria: string, elN: string) {
    && Has(aria, elN, "ATENDIMENTO") && Has(aria, elN, "MEDICO")
    && (Has(aria, elN, "PACIENT") || Has(aria, elN, "AGUARD"))
  }

  /** The keyword priority chain of the main pass. */
  function Decide(aria: string, elN: string): (r: Action)
    ensures r == SetUnidade <==> Has(aria, elN, "PACIENTES NA UNIDADE")
    ensures r == SetRegulacao <==>
      !Has(aria, elN, "PACIENTES NA UNIDADE") && Has(aria, elN, "AGUARDANDO REGULACAO")
    ensures r == SetAtMedico <==>
      && !Has(aria, elN, "PACIENTES NA UNIDADE") && !Has(aria, elN, "AGUARDANDO REGULACAO")
      && AtMedicoCard(aria, elN)
    ensures r.ClassifyAs? <==>
      && !Has(aria, elN, "PACIENTES NA UNIDADE") && !Has(aria, elN, "AGUARDANDO REGULACAO")
      && !AtMedicoCard(aria, elN) && FirstColor(aria, elN).Some? && Gate(aria, elN)
    ensures r.ClassifyAs? ==> Some(r.color) == FirstColor(aria, elN)
  {
    if Has(aria, elN, "PACIENTES NA UNIDADE") then SetUnidade
    else if Has(aria, elN, "AGUARDANDO REGULACAO") then SetRegulacao
    else if AtMedicoCard(aria, elN) then SetAtMedico
    else match FirstColor(aria, elN)
      case None => Skip
      case Some(c) => if Gate(aria, elN) then ClassifyAs(c) else Skip
  }

  function DecideNode(n: Node): Action {
    Decide(Norm(n.ariaRaw), Norm(n.elText))
  }

  /** The patient count of a node: from its raw label, then its raw text. */
  function NodeCount(n: Node): (r: Option<int>)
    ensures r.Some? ==> Plausible(r.value)
  {
    PatientCount([n.ariaRaw, n.elText])
  }

  /** The wait of a node: the first time found in the raw label, the raw
      text, the normalised label, the normalised text. */
  function NodeTempo(n: Node): (r: Option<string>)
    ensures r.Some? ==> r.value == "IMEDIATO" || |r.value| == 8
  {
    OrElse(OrElse(OrElse(ExtractTime(n.ariaRaw), ExtractTime(n.elText)),
                  ExtractTime(Norm(n.ariaRaw))), ExtractTime(Norm(n.elText)))
  }

  // ---------------------------------------------------------------------
  // The main pass
  // ---------------------------------------------------------------------

  /** The keep-first choice between two optional values. */
  function FirstSome<T>(a: Option<T>, b: Option<T>): Option<T> {
    if a.Some? then a else b
  }

  /** A colour's current entry, or an empty one (`.get(color, {}) or {}`). */
  function SlotOf(m: Metrics, c: string): Slot {
    if c in m.classificacoes then m.classificacoes[c] else EMPTY_SLOT
  }

  /** Fill each field of a colour's entry only while it is still empty. */
  function Merge(prev: Slot, pacientes: Option<int>, tempo: Option<string>): (r: Slot)
    ensures r.pacientes == FirstSome(prev.pacientes, pacientes)
    ensures r.tempoMedio == FirstSome(prev.tempoMedio, tempo)
  {
    var p1 := if prev.pacientes.None? && pacientes.Some? then prev.(pacientes := pacientes) else prev;
    if p1.tempoMedio.None? && tempo.Some? then p1.(tempoMedio := tempo) else p1
  }

  /** The effect of one node on the result. */
  function ApplyNode(out: Metrics, n: Node): (r: Metrics)
    ensures COLOR_SET <= out.classificacoes.Keys ==> r.classificacoes.Keys == out.classificacoes.Keys
    ensures r.updatedAt == out.updatedAt
  {
    match DecideNode(n)
    case SetUnidade => out.(pacientesUnidade := NodeCount(n))
    case SetRegulacao => out.(pacientesRegulacao := NodeCount(n))
    case SetAtMedico => out.(pacientesAtMedico := NodeCount(n))
    case ClassifyAs(c) =>
      out.(classificacoes := out.classificacoes[c := Merge(SlotOf(out, c), NodeCount(n), NodeTempo(n))])
    case Skip => out
  }

  /** The main pass over the nodes, in document order. */
  function MainPass(out: Metrics, nodes: seq<Node>): (r: Metrics)
    ensures COLOR_SET <= out.classificacoes.Keys ==> r.classificacoes.Keys == out.classificacoes.Keys
    ensures r.updatedAt == out.updatedAt
  {
    if nodes == [] then out
    else ApplyNode(MainPass(out, nodes[..|nodes| - 1]), nodes[|nodes| - 1])
  }

  /** One more node extends the main pass by one step. */
  lemma MainPassStep(out: Metrics, nodes: seq<Node>, i: nat)
    requires i < |nodes|
    ensures MainPass(out, nodes[..i + 1]) == ApplyNode(MainPass(out, nodes[..i]), nodes[i])
  {
    assert nodes[..i + 1][..i] == nodes[..i];
  }

  // ---------------------------------------------------------------------
  // The fallback pass
  // ---------------------------------------------------------------------

  /** Python's `s[lo:hi]` for `0 <= lo <= hi`: both ends are clamped. */
  function PySlice(s: string, lo: nat, hi: nat): (r: string)
    requires lo <= hi
    ensures |r| <= hi - lo
    ensures lo <= |s| ==> r == s[lo..if hi <= |s| then hi else |s|]
    ensures lo >= |s| ==> r == []
  {
    if lo >= |s| then [] else s[lo..if hi <= |s| then hi else |s|]
  }

  /** The raw-text window around index `idx`: 120 characters before and 220
      from it on. */
  function Window(text: string, idx: nat): (w: string)
    ensures |w| <= 340
    ensures idx <= |text| ==>
      var lo := if idx >= 120 then idx - 120 else 0;
      w == text[lo..if idx + 220 <= |text| then idx + 220 else |text|]
  {
    PySlice(text, if idx >= 120 then idx - 120 else 0, idx + 220)
  }

  /** The fallback for one colour. The index is searched in the normalised
      text and the window is cut from the raw text. */
  function FallbackColor(out: Metrics, text: string, c: string): (r: Metrics)
    requires c in out.classificacoes
    ensures r.classificacoes.Keys == out.classificacoes.Keys
    ensures r.(classificacoes := out.classificacoes) == out
    ensures forall d :: d in out.classificacoes && d != c ==> r.classificacoes[d] == out.classificacoes[d]
  {
    var slot := out.classificacoes[c];
    if slot.pacientes.Some? then out
    else
      var idx := Find(Norm(text), c);
      if idx == -1 then out
      else
        var window := Window(text, idx);
        var wn := Norm(window);
        if Contains(wn, "CLASSIF") || Contains(wn, "RISCO") || Contains(wn, "TEMPO") then
          var filled := Slot(PatientCount([window]), OrElse(slot.tempoMedio, ExtractTime(window)));
          out.(classificacoes := out.classificacoes[c := filled])
        else out
  }

  /** The fallback over the first `k` colours, in `COLORS` order. */
  function Fallbacks(out: Metrics, text: string, k: nat): (r: Metrics)
    requires k <= |COLORS|
    requires COLOR_SET <= out.classificacoes.Keys
    ensures r.classificacoes.Keys == out.classificacoes.Keys
    ensures r.(classificacoes := out.classificacoes) == out
  {
    if k == 0 then out
    else FallbackColor(Fallbacks(out, text, k - 1), text, COLORS[k - 1])
  }

  // ---------------------------------------------------------------------
  // parse_upa_dashboard
  // ---------------------------------------------------------------------

  /** The result before any node is seen: the update stamp, and every field
      empty. */
  function Initial(text: string): (r: Metrics)
    ensures r.classificacoes.Keys == COLOR_SET
  {
    Metrics(ExtractUpdatedAt(text), None, None, None, map c | c in COLOR_SET :: EMPTY_SLOT)
  }

  /** `parse_upa_dashboard`: the main pass, then the fallback. */
  function Parse(doc: Document): (r: Metrics)
    ensures r.classificacoes.Keys == COLOR_SET
  {
    Fallbacks(MainPass(Initial(doc.text), AriaNodes(doc.elements)), doc.text, |COLORS|)
  }

  /** The colour scan of one node: the loop over `COLORS` with `break`. */
  method DetectColor(aria: string, elN: string) returns (color: Option<string>)
    ensures color == FirstColor(aria, elN)
  {
    color := None;
    var k := 0;
    while k < |COLORS|
      invariant 0 <= k <= |COLORS|
      invariant FirstColorFrom(aria, elN, k) == FirstColor(aria, elN)
    {
      if Contains(aria, COLORS[k]) || Contains(elN, COLORS[k]) {
        color := Some(COLORS[k]);
        break;
      }
      k := k + 1;
    }
  }

  /** One iteration of the fallback loop, for colour `c`. */
  method FallbackStep(cur: Metrics, text: string, bigNorm: string, c: string) returns (out: Metrics)
    requires c in cur.classificacoes
    requires bigNorm == Norm(text)
    ensures out == FallbackColor(cur, text, c)
  {
    out := cur;
    if out.classificacoes[c].pacientes.None? {
      var idx := Find(bigNorm, c);
      if idx != -1 {
        var window := Window(text, idx);
        var windowNorm := Norm(window);
        if Contains(windowNorm, "CLASSIF") || Contains(windowNorm, "RISCO") || Contains(windowNorm, "TEMPO") {
          var p := PickPatientCount([window]);
          var slot := out.classificacoes[c].(pacientes := p);
          slot := slot.(tempoMedio := OrElse(slot.tempoMedio, ExtractTime(window)));
          out := out.(classificacoes := out.classificacoes[c := slot]);
        }
      }
    }
  }

  /** The fallback over `k + 1` colours is one more step after the first `k`. */
  lemma FallbacksStep(main: Metrics, text: string, k: nat)
    requires k < |COLORS|
    requires COLOR_SET <= main.classificacoes.Keys
    ensures COLORS[k] in Fallbacks(main, text, k).classificacoes
    ensures Fallbacks(main, text, k + 1) == FallbackColor(Fallbacks(main, text, k), text, COLORS[k])
  {
    assert COLORS[k] in COLOR_SET;
  }

  /** The fallback loop over `COLORS`. */
  method FallbackPass(main: Metrics, text: string) returns (out: Metrics)
    requires COLOR_SET <= main.classificacoes.Keys
    ensures out == Fallbacks(main, text, |COLORS|)
  {
    out := main;
    var bigNorm := Norm(text);
    for k := 0 to |COLORS|
      invariant out == Fallbacks(main, text, k)
    {
      FallbacksStep(main, text, k);
      out := FallbackStep(out, text, bigNorm, COLORS[k]);
    }
  }

  /** One iteration of the main loop of `parse_upa_dashboard`: each
      `continue` of the source is a `return` here. */
  method ProcessNode(cur: Metrics, node: Node) returns (out: Metrics)
    ensures out == ApplyNode(cur, node)
  {
    out := cur;
    var aria := Norm(node.ariaRaw);
    var elN := Norm(node.elText);

    if Contains(aria, "PACIENTES NA UNIDADE") || Contains(elN, "PACIENTES NA UNIDADE") {
      assert DecideNode(node) == SetUnidade;
      var p := PickPatientCount([node.ariaRaw, node.elText]);
      out := out.(pacientesUnidade := p);
      return;
    }
    if Contains(aria, "AGUARDANDO REGULACAO") || Contains(elN, "AGUARDANDO REGULACAO") {
      assert DecideNode(node) == SetRegulacao;
      var p := PickPatientCount([node.ariaRaw, node.elText]);
      out := out.(pacientesRegulacao := p);
      return;
    }
    if (Contains(aria, "ATENDIMENTO") || Contains(elN, "ATENDIMENTO")) && (Contains(aria, "MEDICO") || Contains(elN, "MEDICO")) {
      if Contains(aria, "PACIENT") || Contains(elN, "PACIENT") || Contains(aria, "AGUARD") || Contains(elN, "AGUARD") {
        assert DecideNode(node) == SetAtMedico;
        var p := PickPatientCount([node.ariaRaw, node.elText]);
        out := out.(pacientesAtMedico := p);
        return;
      }
    }

    assert !AtMedicoCard(aria, elN);
    out := ColorStep(cur, node, aria, elN);
  }

  /** The rest of the iteration once no card matched: the colour is
      detected, the gate tested, and the colour's entry filled. */
  method ColorStep(cur: Metrics, node: Node, aria: string, elN: string) returns (out: Metrics)
    requires aria == Norm(node.ariaRaw) && elN == Norm(node.elText)
    requires !Has(aria, elN, "PACIENTES NA UNIDADE") && !Has(aria, elN, "AGUARDANDO REGULACAO")
    requires !AtMedicoCard(aria, elN)
    ensures out == ApplyNode(cur, node)
  {
    out := cur;
    var color := DetectColor(aria, elN);
    if color.None? {
      assert DecideNode(node) == Skip;
      return;
    }
    var gate := || Contains(aria, "CLASSIF") || Contains(elN, "CLASSIF")
                || Contains(aria, "RISCO") || Contains(elN, "RISCO")
                || Contains(aria, "TEMPO") || Contains(elN, "TEMPO")
                || Contains(aria, "PACIENT") || Contains(elN, "PACIENT");
    if !gate {
      assert DecideNode(node) == Skip;
      return;
    }
    assert DecideNode(node) == ClassifyAs(color.value);
    out := ClassifyNode(cur, node, color.value);
  }

  /** The classification step of the main loop: the node's wait and count
      fill only the still-empty fields of colour `c`'s entry. */
  method ClassifyNode(cur: Metrics, node: Node, c: string) returns (out: Metrics)
    ensures out.classificacoes == cur.classificacoes[c := Merge(SlotOf(cur, c), NodeCount(node), NodeTempo(node))]
    ensures out.(classificacoes := cur.classificacoes) == cur
  {
    var aria := Norm(node.ariaRaw);
    var elN := Norm(node.elText);
    var tempo := OrElse(OrElse(OrElse(ExtractTime(node.ariaRaw), ExtractTime(node.elText)),
                               ExtractTime(aria)), ExtractTime(elN));
    var pacientes := PickPatientCount([node.ariaRaw, node.elText]);
    assert tempo == NodeTempo(node) && pacientes == NodeCount(node);
    var prev := SlotOf(cur, c);
    if prev.pacientes.None? && pacientes.Some? {
      prev := prev.(pacientes := pacientes);
    }
    if prev.tempoMedio.None? && tempo.Some? {
      prev := prev.(tempoMedio := tempo);
    }
    assert prev == Merge(SlotOf(cur, c), pacientes, tempo);
    out := cur.(classificacoes := cur.classificacoes[c := prev]);
  }

  /** The loop of `parse_upa_dashboard` over the labelled nodes. */
  method MainLoop(init: Metrics, nodes: seq<Node>) returns (out: Metrics)
    ensures out == MainPass(init, nodes)
  {
    out := init;
    var i := 0;
    while i < |nodes|
      invariant 0 <= i <= |nodes|
      invariant out == MainPass(init, nodes[..i])
    {
      MainPassStep(init, nodes, i);
      out := ProcessNode(out, nodes[i]);
      i := i + 1;
    }
    assert nodes[..i] == nodes;
  }

  /** `parse_upa_dashboard`, as the source writes it: the result record is
      updated node by node, then colour by colour. */
  method ParseDashboard(doc: Document) returns (out: Metrics)
    ensures out == Parse(doc)
  {
    var init := Initial(doc.text);
    var nodes := AriaNodes(doc.elements);
    out := MainLoop(init, nodes);
    out := FallbackPass(out, doc.text);
  }
}
