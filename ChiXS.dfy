// SingleStateMGXS::MakeFromChiXSFile: the records of a Chi cross-section
// file are read one after the other into the material (and into scratch
// vectors local to the reader), then the fission data are checked and
// completed.
module ChiXS {
  import opened Wrappers
  import opened XSBlocks

  /** The one-dimensional blocks, by keyword (the block runs from
    * "<KEYWORD>_BEGIN" to "<KEYWORD>_END"). */
  datatype VectorKeyword =
    | InvVelocity | Velocity | SigmaT | SigmaA | SigmaF | NuSigmaF
    | Nu | NuPrompt | NuDelayed | Beta | Chi | ChiPrompt
    | DecayConstants | FractionalYields

  /** One record of the file: a keyword line with its count, a whole block,
    * or any other line (which the reader passes over). */
  datatype XSRecord =
    | NumGroups(count: int)
    | NumMoments(count: int)
    | NumPrecursors(count: int)
    | GroupStructure(bounds: seq<GroupBound>)
    | VectorBlock(keyword: VectorKeyword, entries: seq<IndexedValue>)
    | ChiDelayed(spectra: seq<MatrixEntry>)
    | TransferMoments(moments: seq<TransferEntry>)
    | ProductionMatrix(production: seq<MatrixEntry>)
    | Other

  datatype Precursor = Precursor(decayConstant: real, fractionalYield: real, emissionSpectrum: seq<real>)

  const DefaultPrecursor := Precursor(0.0, 0.0, [])

  /** The members of SingleStateMGXS that the reader sets. */
  datatype Material = Material(
    numGroups: nat, scatteringOrder: nat, numPrecursors: nat, precursors: seq<Precursor>,
    eBounds: seq<seq<real>>, invVelocity: seq<real>,
    sigmaT: seq<real>, sigmaA: seq<real>, sigmaF: seq<real>, nuSigmaF: seq<real>,
    nuPromptSigmaF: seq<real>, nuDelayedSigmaF: seq<real>,
    transferMatrices: seq<SparseMatrix>, productionMatrix: seq<seq<real>>,
    isFissionable: bool)

  /** The material after Clear(). */
  const Cleared := Material(0, 0, 0, [], [], [], [], [], [], [], [], [], [], [], false)

  /** The vectors local to MakeFromChiXSFile. */
  datatype Scratch = Scratch(
    decayConstants: seq<real>, fractionalYields: seq<real>, emissionSpectra: seq<seq<real>>,
    nu: seq<real>, nuPrompt: seq<real>, nuDelayed: seq<real>, beta: seq<real>,
    chi: seq<real>, chiPrompt: seq<real>)

  const NoScratch := Scratch([], [], [], [], [], [], [], [], [])

  datatype Reading = Reading(mat: Material, tmp: Scratch)

  const Start := Reading(Cleared, NoScratch)

  /** The try block rethrows runtime_error as runtime_error and every
    * logic_error (out_of_range included) as logic_error. */
  function Rethrown(e: Exception): (r: Exception)
    ensures r == RuntimeError || r == LogicError
    ensures r == RuntimeError <==> e == RuntimeError
  {
    if e == RuntimeError then RuntimeError else LogicError
  }

  /** std::vector::resize with default precursors. */
  function Resized(p: seq<Precursor>, n: nat): (r: seq<Precursor>)
    ensures |r| == n
    ensures forall j :: 0 <= j < n && j < |p| ==> r[j] == p[j]
    ensures forall j :: |p| <= j < n ==> r[j] == DefaultPrecursor
  {
    if n <= |p| then p[..n] else p + seq(n - |p|, _ => DefaultPrecursor)
  }

  // ---------------------------------------------------------------------
  // Keyword lines

  function CountStep(rd: Reading, rec: XSRecord): (r: Result<Reading>)
    requires rec.NumGroups? || rec.NumMoments? || rec.NumPrecursors?
  {
    match rec
    case NumGroups(g) =>
      if g <= 0 then Failure(LogicError) else Success(rd.(mat := rd.mat.(numGroups := g)))
    case NumMoments(m) =>
      if m < 0 then Failure(LogicError)
      else Success(rd.(mat := rd.mat.(scatteringOrder := if m - 1 > 0 then m - 1 else 0)))
    case NumPrecursors(j) =>
      if j < 0 then Failure(LogicError)
      else Success(rd.(mat := rd.mat.(numPrecursors := j, precursors := Resized(rd.mat.precursors, j))))
  }

  /** NUM_GROUPS must be strictly positive; NUM_MOMENTS must be non-negative
    * and gives scattering order max(0, M - 1); NUM_PRECURSORS must be
    * non-negative and sizes the precursor list. */
  lemma CountLines(rd: Reading, n: int)
    ensures CountStep(rd, NumGroups(n)).Failure? <==> n <= 0
    ensures n > 0 ==> CountStep(rd, NumGroups(n)).value.mat.numGroups == n
    ensures CountStep(rd, NumMoments(n)).Failure? <==> n < 0
    ensures n >= 0 ==> CountStep(rd, NumMoments(n)).value.mat.scatteringOrder + 1 == (if n == 0 then 1 else n)
    ensures CountStep(rd, NumPrecursors(n)).Failure? <==> n < 0
    ensures n >= 0 ==>
      CountStep(rd, NumPrecursors(n)).value.mat.numPrecursors == n &&
      |CountStep(rd, NumPrecursors(n)).value.mat.precursors| == n
    ensures forall rec: XSRecord :: (rec.NumGroups? || rec.NumMoments? || rec.NumPrecursors?) && CountStep(rd, rec).Success? ==>
      CountStep(rd, rec).value.tmp == rd.tmp
  {
  }

  // ---------------------------------------------------------------------
  // One-dimensional blocks

  /** Blocks the reader passes over: VELOCITY once inverse velocities are
    * known, and the precursor blocks when there are no precursors. */
  predicate Skipped(rd: Reading, kw: VectorKeyword)
  {
    (kw == Velocity && rd.mat.invVelocity != []) ||
    ((kw == DecayConstants || kw == FractionalYields) && rd.mat.numPrecursors == 0)
  }

  /** The length Read1DData sizes the block to. */
  function BlockLength(m: Material, kw: VectorKeyword): nat
  {
    if kw == DecayConstants || kw == FractionalYields then m.numPrecursors else m.numGroups
  }

  /** A cross section that may be absent: uniformly non-positive data is
    * cleared, otherwise negative values are rejected. */
  function Optional(v: seq<real>): (r: Result<seq<real>>)
  {
    if !HasNonZero(v) then Success([])
    else if !IsNonNegative(v) then Failure(LogicError)
    else Success(v)
  }

  /** The total and prompt yields: cleared when uniformly non-positive,
    * otherwise every entry must be zero or above one. */
  function Yield(v: seq<real>): (r: Result<seq<real>>)
  {
    if !HasNonZero(v) then Success([])
    else if !YieldsValid(v) then Failure(LogicError)
    else Success(v)
  }

  /** A spectrum must have a positive entry and no negative one, and is
    * normalised. */
  function Spectrum(v: seq<real>): (r: Result<seq<real>>)
  {
    if !HasNonZero(v) || !IsNonNegative(v) then Failure(LogicError)
    else Success(Normalised(v))
  }

  /** Once the total yield and the delayed fraction are both known, with
    * precursors and no prompt or delayed yield yet, the prompt and delayed
    * yields are derived from them. */
  function WithSplit(m: Material, t: Scratch): (r: Scratch)
  {
    if m.numPrecursors > 0 && t.nu != [] && t.beta != [] && t.nuPrompt == [] && t.nuDelayed == [] then
      var (p, d) := Split(t.nu, t.beta, m.numGroups);
      t.(nuPrompt := p, nuDelayed := d)
    else t
  }

  /** The checks and storage after a one-dimensional block of keyword kw
    * has been read into v. */
  function Store1D(rd: Reading, kw: VectorKeyword, v: seq<real>): (r: Result<Reading>)
  {
    var m := rd.mat;
    var t := rd.tmp;
    match kw
    case InvVelocity =>
      if !IsPositive(v) then Failure(LogicError) else Success(rd.(mat := m.(invVelocity := v)))
    case Velocity =>
      if !IsPositive(v) then Failure(LogicError) else Success(rd.(mat := m.(invVelocity := Inverted(v))))
    case SigmaT =>
      if !IsNonNegative(v) then Failure(LogicError) else Success(rd.(mat := m.(sigmaT := v)))
    case SigmaA =>
      if !IsNonNegative(v) then Failure(LogicError) else Success(rd.(mat := m.(sigmaA := v)))
    case SigmaF =>
      var o := Optional(v);
      if o.Failure? then Failure(LogicError) else Success(rd.(mat := m.(sigmaF := o.value)))
    case NuSigmaF =>
      var o := Optional(v);
      if o.Failure? then Failure(LogicError) else Success(rd.(mat := m.(nuSigmaF := o.value)))
    case Nu =>
      var o := Yield(v);
      if o.Failure? then Failure(LogicError) else Success(rd.(tmp := WithSplit(m, t.(nu := o.value))))
    case NuPrompt =>
      var o := Yield(v);
      if o.Failure? then Failure(LogicError) else Success(rd.(tmp := t.(nuPrompt := o.value)))
    case NuDelayed =>
      var o := Optional(v);
      if o.Failure? then Failure(LogicError) else Success(rd.(tmp := t.(nuDelayed := o.value)))
    case Beta =>
      if !HasNonZero(v) then Success(rd.(tmp := WithSplit(m, t.(beta := []))))
      else if !Fractions(v) then Failure(LogicError)
      else Success(rd.(tmp := WithSplit(m, t.(beta := v))))
    case Chi =>
      var o := Spectrum(v);
      if o.Failure? then Failure(LogicError) else Success(rd.(tmp := t.(chi := o.value)))
    case ChiPrompt =>
      var o := Spectrum(v);
      if o.Failure? then Failure(LogicError) else Success(rd.(tmp := t.(chiPrompt := o.value)))
    case DecayConstants =>
      if !IsPositive(v) then Failure(LogicError) else Success(rd.(tmp := t.(decayConstants := v)))
    case FractionalYields =>
      if !HasNonZero(v) || !Fractions(v) then Failure(LogicError)
      else Success(rd.(tmp := t.(fractionalYields := Normalised(v))))
  }

  /** NU_DELAYED as the source writes it: a uniformly zero delayed yield
    * clears the prompt yield and leaves the zeros in place. */
  function NuDelayedAsWritten(rd: Reading, v: seq<real>): (r: Result<Reading>)
  {
    if !HasNonZero(v) then Success(rd.(tmp := rd.tmp.(nuDelayed := v, nuPrompt := [])))
    else if !IsNonNegative(v) then Failure(LogicError)
    else Success(rd.(tmp := rd.tmp.(nuDelayed := v)))
  }

  function VectorStep(rd: Reading, kw: VectorKeyword, entries: seq<IndexedValue>): (r: Result<Reading>)
  {
    if Skipped(rd, kw) then Success(rd)
    else
      match Read1D(BlockLength(rd.mat, kw), entries)
      case Failure(e) => Failure(Rethrown(e))
      case Success(v) => Store1D(rd, kw, v)
  }

  // ---------------------------------------------------------------------
  // Two-dimensional and transfer blocks

  predicate SpectraValid(rows: seq<seq<real>>)
  {
    forall j :: 0 <= j < |rows| ==> HasNonZero(rows[j]) && IsNonNegative(rows[j])
  }

  function NormalisedRows(rows: seq<seq<real>>): (r: seq<seq<real>>)
    requires SpectraValid(rows)
    ensures |r| == |rows|
  {
    seq(|rows|, j requires 0 <= j < |rows| => Normalised(rows[j]))
  }

  function Step(rd: Reading, rec: XSRecord): (r: Result<Reading>)
  {
    var m := rd.mat;
    match rec
    case NumGroups(_) => CountStep(rd, rec)
    case NumMoments(_) => CountStep(rd, rec)
    case NumPrecursors(_) => CountStep(rd, rec)
    case GroupStructure(bounds) =>
      (match ReadBounds(m.numGroups, bounds)
       case Failure(e) => Failure(Rethrown(e))
       case Success(b) => Success(rd.(mat := m.(eBounds := b))))
    case VectorBlock(kw, entries) => VectorStep(rd, kw, entries)
    case ChiDelayed(entries) =>
      if m.numPrecursors == 0 then Success(rd)
      else
        (match Read2D(m.numPrecursors, m.numGroups, PrecursorEntry, entries)
         case Failure(e) => Failure(Rethrown(e))
         case Success(rows) =>
           if !SpectraValid(rows) then Failure(LogicError)
           else Success(rd.(tmp := rd.tmp.(emissionSpectra := NormalisedRows(rows)))))
    case TransferMoments(entries) =>
      (match ReadTransfer(m.scatteringOrder + 1, m.numGroups, entries)
       case Failure(e) => Failure(Rethrown(e))
       case Success(t) => Success(rd.(mat := m.(transferMatrices := t))))
    case ProductionMatrix(entries) =>
      (match Read2D(m.numGroups, m.numGroups, ProductionEntry, entries)
       case Failure(e) => Failure(Rethrown(e))
       case Success(p) => Success(rd.(mat := m.(productionMatrix := p))))
    case Other => Success(rd)
  }

  /** The file read record by record; the reading stops at the first
    * exception, with the state reached before it. */
  function ReadAll(rd: Reading, records: seq<XSRecord>): (r: (Reading, Option<Exception>))
    decreases |records|
  {
    if records == [] then (rd, None)
    else
      var k := |records| - 1;
      var (s, e) := ReadAll(rd, records[..k]);
      if e.Some? then (s, e)
      else
        match Step(s, records[k])
        case Failure(x) => (s, Some(x))
        case Success(s2) => (s2, None)
  }

  // ---------------------------------------------------------------------
  // Properties of the block checks

  /** SIGMA_T and SIGMA_A reject any negative value; INV_VELOCITY and
    * VELOCITY reject any non-positive value, and VELOCITY stores the
    * reciprocals. */
  lemma CrossSectionChecks(rd: Reading, v: seq<real>)
    ensures Store1D(rd, SigmaT, v).Success? <==> IsNonNegative(v)
    ensures Store1D(rd, SigmaA, v).Success? <==> IsNonNegative(v)
    ensures Store1D(rd, InvVelocity, v).Success? <==> IsPositive(v)
    ensures Store1D(rd, Velocity, v).Success? <==> IsPositive(v)
    ensures Store1D(rd, Velocity, v).Success? ==>
      var w := Store1D(rd, Velocity, v).value.mat.invVelocity;
      |w| == |v| && forall g :: 0 <= g < |v| ==> w[g] * v[g] == 1.0
  {
  }

  /** SIGMA_F, NU_SIGMA_F and NU_DELAYED are either cleared (no positive
    * entry) or kept as read, and then hold no negative entry. */
  lemma OptionalData(v: seq<real>)
    ensures Optional(v).Failure? <==> HasNonZero(v) && !IsNonNegative(v)
    ensures Optional(v).Success? ==> Optional(v).value == [] || (Optional(v).value == v && IsNonNegative(v) && HasNonZero(v))
    ensures !HasNonZero(v) ==> Optional(v) == Success([])
  {
  }

  /** NU and NU_PROMPT entries must be zero or above one; BETA entries must
    * lie in [0, 1]. */
  lemma YieldChecks(rd: Reading, v: seq<real>)
    ensures HasNonZero(v) ==> (Store1D(rd, Nu, v).Success? <==> YieldsValid(v))
    ensures HasNonZero(v) ==> (Store1D(rd, NuPrompt, v).Success? <==> YieldsValid(v))
    ensures HasNonZero(v) ==> (Store1D(rd, Beta, v).Success? <==> Fractions(v))
    ensures Store1D(rd, Beta, v).Success? ==>
      var b := Store1D(rd, Beta, v).value.tmp.beta; Fractions(b) && (b == [] || b == v)
    ensures Store1D(rd, NuPrompt, v).Success? ==>
      var p := Store1D(rd, NuPrompt, v).value.tmp.nuPrompt; YieldsValid(p) && (p == [] || p == v)
  {
  }

  /** CHI and CHI_PROMPT must have a positive entry and no negative one, and
    * are stored normalised to sum one. */
  lemma SpectrumChecks(rd: Reading, v: seq<real>)
    ensures Store1D(rd, Chi, v).Success? <==> HasNonZero(v) && IsNonNegative(v)
    ensures Store1D(rd, ChiPrompt, v).Success? <==> HasNonZero(v) && IsNonNegative(v)
    ensures Store1D(rd, Chi, v).Success? ==>
      var c := Store1D(rd, Chi, v).value.tmp.chi;
      |c| == |v| && Sum(c) == 1.0 && Fractions(c) && Sum(v) > 0.0 &&
      forall g :: 0 <= g < |v| ==> c[g] == v[g] / Sum(v)
  {
    if HasNonZero(v) && IsNonNegative(v) {
      NormalisedIsDistribution(v);
    }
  }

  /** A CHI block read end to end: it succeeds exactly when the block has at
    * most G lines with indices below G, the values read have a positive
    * entry and no negative one; the stored spectrum then has G entries and
    * sums to one. */
  lemma ChiBlock(rd: Reading, entries: seq<IndexedValue>)
    ensures var r := Step(rd, VectorBlock(Chi, entries));
      var n := rd.mat.numGroups;
      (Read1D(n, entries).Success? <==> |entries| <= n && IndicesBelow(entries, n)) &&
      (r.Success? <==>
        (Read1D(n, entries).Success? &&
         HasNonZero(Read1D(n, entries).value) && IsNonNegative(Read1D(n, entries).value))) &&
      (r.Success? ==> |r.value.tmp.chi| == n && Sum(r.value.tmp.chi) == 1.0 && Fractions(r.value.tmp.chi))
  {
    var n := rd.mat.numGroups;
    Read1DSucceeds(n, entries);
    if Read1D(n, entries).Success? {
      SpectrumChecks(rd, Read1D(n, entries).value);
    }
  }

  /** Precursor fractional yields must have a positive entry and lie in
    * [0, 1]; they are stored normalised to sum one. */
  lemma FractionalYieldChecks(rd: Reading, v: seq<real>)
    ensures Store1D(rd, FractionalYields, v).Success? <==> HasNonZero(v) && Fractions(v)
    ensures Store1D(rd, FractionalYields, v).Success? ==>
      Sum(Store1D(rd, FractionalYields, v).value.tmp.fractionalYields) == 1.0
  {
    if HasNonZero(v) && Fractions(v) {
      NormalisedIsDistribution(v);
    }
  }

  /** A prompt/delayed split from NU or BETA adds back up to the total
    * yield. */
  lemma SplitFromBeta(rd: Reading, v: seq<real>)
    requires rd.mat.numPrecursors > 0 && |rd.tmp.nu| == rd.mat.numGroups && IsNonNegative(rd.tmp.nu)
    requires rd.tmp.nuPrompt == [] && rd.tmp.nuDelayed == [] && rd.tmp.nu != []
    requires |v| == rd.mat.numGroups && HasNonZero(v) && Fractions(v)
    ensures Store1D(rd, Beta, v).Success?
    ensures var t := Store1D(rd, Beta, v).value.tmp;
      forall g :: 0 <= g < |v| ==> t.nuPrompt[g] + t.nuDelayed[g] == rd.tmp.nu[g]
  {
    SplitAddsUp(rd.tmp.nu, v, rd.mat.numGroups);
  }

  /** The corrected NU_DELAYED branch leaves the prompt yield alone and
    * keeps the delayed yield either cleared or non-negative with a positive
    * entry. */
  lemma NuDelayedKeepsPrompt(rd: Reading, v: seq<real>)
    ensures Store1D(rd, NuDelayed, v).Success? ==>
      var t := Store1D(rd, NuDelayed, v).value.tmp;
      t.nuPrompt == rd.tmp.nuPrompt &&
      (t.nuDelayed == [] || (t.nuDelayed == v && IsNonNegative(v) && HasNonZero(v)))
  {
  }

  /** The source's NU_DELAYED branch, given any uniformly zero delayed
    * yield, drops the prompt yield read before it and keeps the zeros,
    * where the corrected branch keeps the prompt yield and clears the
    * delayed one; the two differ whenever a prompt yield was read. */
  lemma NuDelayedAsWrittenDropsPrompt(rd: Reading, v: seq<real>)
    requires !HasNonZero(v)
    ensures NuDelayedAsWritten(rd, v).Success? && Store1D(rd, NuDelayed, v).Success?
    ensures NuDelayedAsWritten(rd, v).value.tmp.nuPrompt == []
    ensures NuDelayedAsWritten(rd, v).value.tmp.nuDelayed == v
    ensures Store1D(rd, NuDelayed, v).value.tmp.nuPrompt == rd.tmp.nuPrompt
    ensures Store1D(rd, NuDelayed, v).value.tmp.nuDelayed == []
  {
  }

  /** CHI_DELAYED is read only with precursors; each precursor's spectrum
    * must have a positive entry and no negative one, and is normalised. */
  lemma ChiDelayedChecks(rd: Reading, entries: seq<MatrixEntry>)
    ensures rd.mat.numPrecursors == 0 ==> Step(rd, ChiDelayed(entries)) == Success(rd)
    ensures rd.mat.numPrecursors > 0 && Step(rd, ChiDelayed(entries)).Success? ==>
      var s := Step(rd, ChiDelayed(entries)).value.tmp.emissionSpectra;
      |s| == rd.mat.numPrecursors &&
      forall j :: 0 <= j < |s| ==> Sum(s[j]) == 1.0 && Fractions(s[j])
  {
    var m := rd.mat;
    if m.numPrecursors > 0 && Step(rd, ChiDelayed(entries)).Success? {
      var rows := Read2D(m.numPrecursors, m.numGroups, PrecursorEntry, entries).value;
      forall j | 0 <= j < |rows|
        ensures Sum(NormalisedRows(rows)[j]) == 1.0 && Fractions(NormalisedRows(rows)[j])
      {
        NormalisedIsDistribution(rows[j]);
      }
    }
  }

  // ---------------------------------------------------------------------
  // Fission data

  function MatAt(p: seq<seq<real>>, g: nat, gp: nat): real
  {
    if g < |p| && gp < |p[g]| then p[g][gp] else 0.0
  }

  function RowAt(p: seq<seq<real>>, j: nat): seq<real>
  {
    if j < |p| then p[j] else []
  }

  /** A material is fissionable when it has fission or production cross
    * sections, or a production matrix. */
  predicate Fissionable(m: Material)
  {
    m.sigmaF != [] || m.nuSigmaF != [] || m.productionMatrix != []
  }

  /** The checks on the yield and spectrum data: exactly one of the total and
    * prompt yields, exactly one of the steady-state and prompt spectra, and
    * the total yield goes with the steady-state spectrum, the prompt yield
    * with the prompt spectrum. */
  predicate YieldSpecInvalid(t: Scratch)
  {
    (t.nu == [] && t.nuPrompt == []) || (t.nu != [] && t.nuPrompt != []) ||
    (t.chi == [] && t.chiPrompt == []) || (t.chi != [] && t.chiPrompt != []) ||
    (t.nu != [] && t.chi == []) || (t.nu == [] && t.chi != []) ||
    (t.nuPrompt != [] && t.chiPrompt == []) || (t.nuPrompt == [] && t.chiPrompt != [])
  }

  /** The delayed-data check as the source writes it: an empty list of
    * emission spectra passes, since no row of it is empty. */
  predicate DelayedDataMissingAsWritten(t: Scratch)
  {
    t.chiPrompt == [] || t.nuPrompt == [] || t.nuDelayed == [] ||
    t.decayConstants == [] || t.fractionalYields == [] ||
    exists j :: 0 <= j < |t.emissionSpectra| && t.emissionSpectra[j] == []
  }

  /** The corrected check: the emission spectra must also cover every
    * precursor species. */
  predicate DelayedDataMissing(t: Scratch, precursors: nat)
  {
    DelayedDataMissingAsWritten(t) || |t.emissionSpectra| < precursors
  }

  /** Whenever the prompt yield and spectrum, the delayed yield, the decay
    * constants and the fractional yields are all read but fewer emission
    * spectra than precursors (none at all when no CHI_DELAYED block was
    * read), the check as written passes while the copy of the missing
    * spectra has nothing to read; the corrected check rejects it. */
  lemma AsWrittenAcceptsMissingSpectra(t: Scratch, precursors: nat)
    requires t.chiPrompt != [] && t.nuPrompt != [] && t.nuDelayed != []
    requires t.decayConstants != [] && t.fractionalYields != []
    requires forall j :: 0 <= j < |t.emissionSpectra| ==> t.emissionSpectra[j] != []
    requires |t.emissionSpectra| < precursors
    ensures !DelayedDataMissingAsWritten(t) && DelayedDataMissing(t, precursors)
    ensures var t0 := t.(emissionSpectra := []); !DelayedDataMissingAsWritten(t0) && DelayedDataMissing(t0, 1)
  {
  }

  function Div(a: real, b: real): real
  {
    if b == 0.0 then 0.0 else a / b
  }

  function Products(a: seq<real>, b: seq<real>, n: nat): (r: seq<real>)
    ensures |r| == n && forall g :: 0 <= g < n ==> r[g] == At(a, g) * At(b, g)
  {
    seq(n, g requires 0 <= g => At(a, g) * At(b, g))
  }

  /** The production matrix built from a spectrum and a production cross
    * section: row g, column gp holds chi[g] * nu_sigma_f[gp]. */
  function Outer(chi: seq<real>, src: seq<real>, n: nat): (r: seq<seq<real>>)
    ensures |r| == n && forall g :: 0 <= g < n ==> |r[g]| == n
    ensures forall g, gp :: 0 <= g < n && 0 <= gp < n ==> r[g][gp] == At(chi, g) * At(src, gp)
  {
    seq(n, g requires 0 <= g => OuterRow(chi, src, n, g))
  }

  function OuterRow(chi: seq<real>, src: seq<real>, n: nat, g: nat): (r: seq<real>)
    ensures |r| == n && forall gp :: 0 <= gp < n ==> r[gp] == At(chi, g) * At(src, gp)
  {
    seq(n, gp requires 0 <= gp => At(chi, g) * At(src, gp))
  }

  /** The sum of column gp over the first n rows. */
  function ColumnSum(p: seq<seq<real>>, gp: nat, n: nat): real
  {
    if n == 0 then 0.0 else ColumnSum(p, gp, n - 1) + MatAt(p, n - 1, gp)
  }

  function ColumnSums(p: seq<seq<real>>, n: nat): (r: seq<real>)
    ensures |r| == n
  {
    seq(n, gp requires 0 <= gp => ColumnSum(p, gp, n))
  }

  /** The estimated yield of each group when a production matrix is given. */
  function EstimatedYield(nuSigmaF: seq<real>, sigmaF: seq<real>, n: nat): (r: seq<real>)
    ensures |r| == n
  {
    seq(n, g requires 0 <= g => if At(sigmaF, g) > 0.0 then At(nuSigmaF, g) / At(sigmaF, g) else 0.0)
  }

  predicate EstimatedYieldsValid(v: seq<real>)
  {
    forall g :: 0 <= g < |v| ==> v[g] == 0.0 || (1.0 < v[g] < 10.0)
  }

  function FilledPrecursors(t: Scratch, n: nat): (r: seq<Precursor>)
    ensures |r| == n
  {
    seq(n, j requires 0 <= j => Precursor(At(t.decayConstants, j), At(t.fractionalYields, j), RowAt(t.emissionSpectra, j)))
  }

  /** The fissionable branch without a production matrix. */
  function FromYields(m: Material, t: Scratch): (r: (Material, Option<Exception>))
  {
    var n := m.numGroups;
    var j := m.numPrecursors;
    if YieldSpecInvalid(t) then (m, Some(LogicError))
    else if j > 0 && DelayedDataMissing(t, j) then (m, Some(LogicError))
    else
      var nu1 := if t.nuPrompt != [] then seq(n, g requires 0 <= g => At(t.nuPrompt, g)) else t.nu;
      var nu2 := if j > 0 then seq(n, g requires 0 <= g => At(nu1, g) + At(t.nuDelayed, g)) else nu1;
      var precursors := if j > 0 then FilledPrecursors(t, j) else m.precursors;
      var sf := if m.sigmaF == [] && m.nuSigmaF != []
        then seq(n, g requires 0 <= g => if At(m.nuSigmaF, g) > 0.0 then Div(At(m.nuSigmaF, g), At(nu2, g)) else 0.0)
        else m.sigmaF;
      var nsf := Products(nu2, sf, n);
      var npsf := if t.nuPrompt != [] then Products(t.nuPrompt, sf, n) else m.nuPromptSigmaF;
      var ndsf := if t.nuDelayed != [] then Products(t.nuDelayed, sf, n) else m.nuDelayedSigmaF;
      var spectrum := if t.chiPrompt != [] then t.chiPrompt else t.chi;
      var production := if t.nuPrompt != [] then npsf else nsf;
      (m.(precursors := precursors, sigmaF := sf, nuSigmaF := nsf, nuPromptSigmaF := npsf,
          nuDelayedSigmaF := ndsf, productionMatrix := m.productionMatrix + Outer(spectrum, production, n)), None)
  }

  /** The fissionable branch with a production matrix. */
  function FromMatrix(m: Material): (r: (Material, Option<Exception>))
  {
    var n := m.numGroups;
    if m.numPrecursors > 0 then (m, Some(RuntimeError))
    else if m.sigmaF == [] then (m, Some(LogicError))
    else
      var nsf := ColumnSums(m.productionMatrix, n);
      var m2 := m.(nuSigmaF := nsf);
      if !EstimatedYieldsValid(EstimatedYield(nsf, m.sigmaF, n)) then (m2, Some(LogicError))
      else (m2, None)
  }

  /** The fission data after the loop over the file, before the final
    * "sigma_f is not defined" check. */
  function FissionData(rd: Reading): (r: (Material, Option<Exception>))
  {
    var m := rd.mat.(isFissionable := Fissionable(rd.mat));
    if !m.isFissionable then
      (m.(sigmaF := [], nuSigmaF := [], nuPromptSigmaF := [], nuDelayedSigmaF := [], precursors := []), None)
    else if m.productionMatrix == [] then FromYields(m, rd.tmp)
    else FromMatrix(m)
  }

  /** The whole post-processing, with the final check that a fissionable
    * material ends with fission cross sections. */
  function Finish(rd: Reading): (r: (Material, Option<Exception>))
  {
    var (m, e) := FissionData(rd);
    if e.None? && m.isFissionable && m.sigmaF == [] then (m, Some(LogicError)) else (m, e)
  }

  /** Fissionable exactly when fission or production cross sections or a
    * production matrix were read; otherwise every fission quantity is
    * cleared. */
  lemma FissionableIff(rd: Reading)
    ensures FissionData(rd).0.isFissionable <==>
      rd.mat.sigmaF != [] || rd.mat.nuSigmaF != [] || rd.mat.productionMatrix != []
    ensures !Fissionable(rd.mat) ==>
      var m := FissionData(rd).0;
      FissionData(rd).1 == None && m.sigmaF == [] && m.nuSigmaF == [] && m.nuPromptSigmaF == [] &&
      m.nuDelayedSigmaF == [] && m.precursors == [] && m.productionMatrix == []
  {
  }

  /** Without a production matrix, the yield and spectrum data must name
    * exactly one of total and prompt, consistently. */
  lemma YieldSpecificationRequired(rd: Reading)
    requires Fissionable(rd.mat) && rd.mat.productionMatrix == []
    ensures YieldSpecInvalid(rd.tmp) ==> FissionData(rd).1 == Some(LogicError)
    ensures FissionData(rd).1.None? ==>
      (rd.tmp.nu != [] <==> rd.tmp.nuPrompt == []) && (rd.tmp.chi != [] <==> rd.tmp.chiPrompt == []) &&
      (rd.tmp.nu != [] <==> rd.tmp.chi != [])
  {
  }

  /** A production matrix is refused with precursors (runtime_error) or
    * without fission cross sections (logic_error); otherwise the production
    * cross section is the column sums of the matrix. */
  lemma ProductionMatrixBranch(rd: Reading)
    requires rd.mat.productionMatrix != []
    ensures rd.mat.numPrecursors > 0 ==> FissionData(rd).1 == Some(RuntimeError)
    ensures rd.mat.numPrecursors == 0 && rd.mat.sigmaF == [] ==> FissionData(rd).1 == Some(LogicError)
    ensures FissionData(rd).1.None? ==>
      forall gp :: 0 <= gp < rd.mat.numGroups ==>
        FissionData(rd).0.nuSigmaF[gp] == ColumnSum(rd.mat.productionMatrix, gp, rd.mat.numGroups)
  {
  }

  /** With delayed neutrons, each precursor takes its decay constant,
    * fractional yield and the emission spectrum of its own row. */
  lemma PrecursorsFilled(rd: Reading)
    requires Fissionable(rd.mat) && rd.mat.productionMatrix == [] && rd.mat.numPrecursors > 0
    requires FissionData(rd).1.None?
    ensures var p := FissionData(rd).0.precursors;
      |p| == rd.mat.numPrecursors && |rd.tmp.emissionSpectra| >= rd.mat.numPrecursors &&
      forall j :: 0 <= j < |p| ==>
        p[j].emissionSpectrum == rd.tmp.emissionSpectra[j] &&
        p[j].decayConstant == At(rd.tmp.decayConstants, j) &&
        p[j].fractionalYield == At(rd.tmp.fractionalYields, j)
  {
  }

  lemma {:induction false} OuterColumnSum(chi: seq<real>, src: seq<real>, n: nat, k: nat, gp: nat)
    requires k <= |chi| && k <= n && gp < n
    ensures ColumnSum(Outer(chi, src, n), gp, k) == Sum(chi[..k]) * At(src, gp)
  {
    if k > 0 {
      OuterColumnSum(chi, src, n, k - 1, gp);
      assert chi[..k][..k - 1] == chi[..k - 1];
      var s := Sum(chi[..k - 1]);
      var x := At(src, gp);
      assert MatAt(Outer(chi, src, n), k - 1, gp) == chi[k - 1] * x;
      assert s * x + chi[k - 1] * x == (s + chi[k - 1]) * x;
    }
  }

  /** The production matrix built from a spectrum that sums to one gives
    * back, column by column, the production cross section it was built
    * from: it is the form the production-matrix branch reads. */
  lemma ProductionMatrixConserves(chi: seq<real>, src: seq<real>, n: nat)
    requires |chi| == n && Sum(chi) == 1.0
    ensures forall gp :: 0 <= gp < n ==> ColumnSum(Outer(chi, src, n), gp, n) == At(src, gp)
  {
    assert chi[..n] == chi;
    forall gp | 0 <= gp < n
      ensures ColumnSum(Outer(chi, src, n), gp, n) == At(src, gp)
    {
      OuterColumnSum(chi, src, n, n, gp);
    }
  }

  // ---------------------------------------------------------------------
  // The reachable states, and the final check that never fires

  /** Holds of every state the reader reaches from a cleared material: a
    * production cross section is only kept once the group count is known,
    * and the precursor list matches the precursor count. */
  predicate Reachable(rd: Reading)
  {
    (rd.mat.numGroups == 0 ==> rd.mat.nuSigmaF == []) &&
    |rd.mat.precursors| == rd.mat.numPrecursors
  }

  lemma StepKeepsReachable(rd: Reading, rec: XSRecord)
    requires Reachable(rd) && Step(rd, rec).Success?
    ensures Reachable(Step(rd, rec).value)
  {
    if rec.VectorBlock? && rec.keyword == NuSigmaF && !Skipped(rd, NuSigmaF) && rd.mat.numGroups == 0 {
      var v := Read1D(0, rec.entries).value;
      assert v == [];
      assert !HasNonZero(v);
    }
  }

  lemma {:induction false} ReadAllKeepsReachable(rd: Reading, records: seq<XSRecord>)
    requires Reachable(rd)
    ensures Reachable(ReadAll(rd, records).0)
    decreases |records|
  {
    if records != [] {
      var k := |records| - 1;
      ReadAllKeepsReachable(rd, records[..k]);
      var (s, e) := ReadAll(rd, records[..k]);
      if e.None? && Step(s, records[k]).Success? {
        StepKeepsReachable(s, records[k]);
      }
    }
  }

  /** The final "sigma_f is not defined" check never fires on a state the
    * reader reaches: a fissionable material always ends with fission cross
    * sections. */
  lemma FinalCheckNeverFires(records: seq<XSRecord>)
    ensures var rd := ReadAll(Start, records).0;
      Finish(rd) == FissionData(rd) &&
      (FissionData(rd).1.None? && FissionData(rd).0.isFissionable ==> FissionData(rd).0.sigmaF != [])
  {
    ReadAllKeepsReachable(Start, records);
  }

  // ---------------------------------------------------------------------
  // The imperative reader

  method ReadVectorBlock(rd: Reading, kw: VectorKeyword, entries: seq<IndexedValue>) returns (r: Result<Reading>)
    ensures r == VectorStep(rd, kw, entries)
  {
    if Skipped(rd, kw) {
      return Success(rd);
    }
    var read := ReadVectorData(BlockLength(rd.mat, kw), entries);
    if read.Failure? {
      return Failure(Rethrown(read.error));
    }
    var v := read.value;
    match kw {
      case Velocity =>
        if !IsPositive(v) {
          return Failure(LogicError);
        }
        var w := Invert(v);
        r := Success(rd.(mat := rd.mat.(invVelocity := w)));
      case Nu =>
        var o := Yield(v);
        if o.Failure? {
          return Failure(LogicError);
        }
        var t := rd.tmp.(nu := o.value);
        t := SplitIfReady(rd.mat, t);
        r := Success(rd.(tmp := t));
      case Beta =>
        if HasNonZero(v) && !Fractions(v) {
          return Failure(LogicError);
        }
        var t := rd.tmp.(beta := if HasNonZero(v) then v else []);
        t := SplitIfReady(rd.mat, t);
        r := Success(rd.(tmp := t));
      case Chi =>
        if !HasNonZero(v) || !IsNonNegative(v) {
          return Failure(LogicError);
        }
        var c := Normalise(v);
        r := Success(rd.(tmp := rd.tmp.(chi := c)));
      case ChiPrompt =>
        if !HasNonZero(v) || !IsNonNegative(v) {
          return Failure(LogicError);
        }
        var c := Normalise(v);
        r := Success(rd.(tmp := rd.tmp.(chiPrompt := c)));
      case FractionalYields =>
        if !HasNonZero(v) || !Fractions(v) {
          return Failure(LogicError);
        }
        var y := Normalise(v);
        r := Success(rd.(tmp := rd.tmp.(fractionalYields := y)));
      case _ =>
        r := Store1D(rd, kw, v);
    }
  }

  method SplitIfReady(m: Material, t: Scratch) returns (r: Scratch)
    ensures r == WithSplit(m, t)
  {
    r := t;
    if m.numPrecursors > 0 && t.nu != [] && t.beta != [] && t.nuPrompt == [] && t.nuDelayed == [] {
      var p, d := SplitYield(t.nu, t.beta, m.numGroups);
      r := t.(nuPrompt := p, nuDelayed := d);
    }
  }

  /** The CHI_DELAYED loop over precursor species: check, then normalise,
    * each row. */
  method NormaliseSpectra(rows: seq<seq<real>>) returns (r: Result<seq<seq<real>>>)
    ensures SpectraValid(rows) ==> r == Success(NormalisedRows(rows))
    ensures !SpectraValid(rows) ==> r == Failure(LogicError)
  {
    var out: seq<seq<real>> := [];
    var j := 0;
    while j < |rows|
      invariant 0 <= j <= |rows| && |out| == j
      invariant forall l :: 0 <= l < j ==> HasNonZero(rows[l]) && IsNonNegative(rows[l]) && out[l] == Normalised(rows[l])
    {
      if !HasNonZero(rows[j]) || !IsNonNegative(rows[j]) {
        return Failure(LogicError);
      }
      var row := Normalise(rows[j]);
      out := out + [row];
      j := j + 1;
    }
    assert out == NormalisedRows(rows);
    r := Success(out);
  }

  method ReadRecord(rd: Reading, rec: XSRecord) returns (r: Result<Reading>)
    ensures r == Step(rd, rec)
  {
    var m := rd.mat;
    match rec {
      case NumGroups(_) => r := CountStep(rd, rec);
      case NumMoments(_) => r := CountStep(rd, rec);
      case NumPrecursors(_) => r := CountStep(rd, rec);
      case GroupStructure(bounds) =>
        var b := ReadGroupStructure(m.numGroups, bounds);
        r := if b.Failure? then Failure(Rethrown(b.error)) else Success(rd.(mat := m.(eBounds := b.value)));
      case VectorBlock(kw, entries) =>
        r := ReadVectorBlock(rd, kw, entries);
      case ChiDelayed(entries) =>
        if m.numPrecursors == 0 {
          return Success(rd);
        }
        var rows := ReadMatrixData(m.numPrecursors, m.numGroups, PrecursorEntry, entries);
        if rows.Failure? {
          return Failure(Rethrown(rows.error));
        }
        var spectra := NormaliseSpectra(rows.value);
        r := if spectra.Failure? then Failure(LogicError) else Success(rd.(tmp := rd.tmp.(emissionSpectra := spectra.value)));
      case TransferMoments(entries) =>
        var t := ReadTransferMatrices(m.scatteringOrder + 1, m.numGroups, entries);
        r := if t.Failure? then Failure(Rethrown(t.error)) else Success(rd.(mat := m.(transferMatrices := t.value)));
      case ProductionMatrix(entries) =>
        var p := ReadMatrixData(m.numGroups, m.numGroups, ProductionEntry, entries);
        r := if p.Failure? then Failure(Rethrown(p.error)) else Success(rd.(mat := m.(productionMatrix := p.value)));
      case Other => r := Success(rd);
    }
  }

  method Multiply(a: seq<real>, b: seq<real>, n: nat) returns (r: seq<real>)
    ensures r == Products(a, b, n)
  {
    r := Zeros(n);
    var g := 0;
    while g < n
      invariant 0 <= g <= n && |r| == n
      invariant forall l :: 0 <= l < g ==> r[l] == At(a, l) * At(b, l)
    {
      r := r[g := At(a, g) * At(b, g)];
      g := g + 1;
    }
  }

  method BuildProductionMatrix(spectrum: seq<real>, production: seq<real>, n: nat) returns (p: seq<seq<real>>)
    ensures p == Outer(spectrum, production, n)
  {
    p := [];
    var g := 0;
    while g < n
      invariant 0 <= g <= n && |p| == g
      invariant forall l :: 0 <= l < g ==> p[l] == OuterRow(spectrum, production, n, l)
    {
      var row: seq<real> := [];
      var gp := 0;
      while gp < n
        invariant 0 <= gp <= n && |row| == gp
        invariant forall l :: 0 <= l < gp ==> row[l] == At(spectrum, g) * At(production, l)
      {
        row := row + [At(spectrum, g) * At(production, gp)];
        gp := gp + 1;
      }
      assert row == OuterRow(spectrum, production, n, g);
      p := p + [row];
      g := g + 1;
    }
  }

  /** nu_sigma_f as the column sums of the production matrix, accumulated
    * row by row. */
  method SumColumns(pm: seq<seq<real>>, n: nat) returns (r: seq<real>)
    ensures r == ColumnSums(pm, n)
  {
    r := Zeros(n);
    var g := 0;
    while g < n
      invariant 0 <= g <= n && |r| == n
      invariant forall l :: 0 <= l < n ==> r[l] == ColumnSum(pm, l, g)
    {
      var gp := 0;
      while gp < n
        invariant 0 <= gp <= n && |r| == n
        invariant forall l :: 0 <= l < gp ==> r[l] == ColumnSum(pm, l, g + 1)
        invariant forall l :: gp <= l < n ==> r[l] == ColumnSum(pm, l, g)
      {
        r := r[gp := r[gp] + MatAt(pm, g, gp)];
        gp := gp + 1;
      }
      g := g + 1;
    }
  }

  method FissionFromYields(m: Material, t: Scratch) returns (out: Material, e: Option<Exception>)
    ensures (out, e) == FromYields(m, t)
  {
    var n := m.numGroups;
    var j := m.numPrecursors;
    if YieldSpecInvalid(t) || (j > 0 && DelayedDataMissing(t, j)) {
      return m, Some(LogicError);
    }
    var nu := t.nu;
    if t.nuPrompt != [] {
      nu := Zeros(n);
      var g := 0;
      while g < n
        invariant 0 <= g <= n && |nu| == n
        invariant forall l :: 0 <= l < g ==> nu[l] == At(t.nuPrompt, l)
      {
        nu := nu[g := At(t.nuPrompt, g)];
        g := g + 1;
      }
      assert nu == seq(n, g requires 0 <= g => At(t.nuPrompt, g));
    }
    ghost var nu1 := nu;
    var precursors := m.precursors;
    if j > 0 {
      var total := Zeros(n);
      var g := 0;
      while g < n
        invariant 0 <= g <= n && |total| == n
        invariant forall l :: 0 <= l < g ==> total[l] == At(nu, l) + At(t.nuDelayed, l)
      {
        total := total[g := At(nu, g) + At(t.nuDelayed, g)];
        g := g + 1;
      }
      assert total == seq(n, g requires 0 <= g => At(nu, g) + At(t.nuDelayed, g));
      nu := total;
      precursors := [];
      var k := 0;
      while k < j
        invariant 0 <= k <= j && |precursors| == k
        invariant forall l :: 0 <= l < k ==>
          precursors[l] == Precursor(At(t.decayConstants, l), At(t.fractionalYields, l), RowAt(t.emissionSpectra, l))
      {
        precursors := precursors + [Precursor(At(t.decayConstants, k), At(t.fractionalYields, k), RowAt(t.emissionSpectra, k))];
        k := k + 1;
      }
      assert precursors == FilledPrecursors(t, j);
    }
    var sf := m.sigmaF;
    if m.sigmaF == [] && m.nuSigmaF != [] {
      sf := Zeros(n);
      var g := 0;
      while g < n
        invariant 0 <= g <= n && |sf| == n
        invariant forall l :: 0 <= l < g ==>
          sf[l] == if At(m.nuSigmaF, l) > 0.0 then Div(At(m.nuSigmaF, l), At(nu, l)) else 0.0
        invariant forall l :: g <= l < n ==> sf[l] == 0.0
      {
        if At(m.nuSigmaF, g) > 0.0 {
          sf := sf[g := Div(At(m.nuSigmaF, g), At(nu, g))];
        }
        g := g + 1;
      }
      assert sf == seq(n, g requires 0 <= g => if At(m.nuSigmaF, g) > 0.0 then Div(At(m.nuSigmaF, g), At(nu, g)) else 0.0);
    }
    var nsf := Multiply(nu, sf, n);
    var npsf := m.nuPromptSigmaF;
    if t.nuPrompt != [] {
      npsf := Multiply(t.nuPrompt, sf, n);
    }
    var ndsf := m.nuDelayedSigmaF;
    if t.nuDelayed != [] {
      ndsf := Multiply(t.nuDelayed, sf, n);
    }
    var spectrum := if t.chiPrompt != [] then t.chiPrompt else t.chi;
    var production := if t.nuPrompt != [] then npsf else nsf;
    var pm := BuildProductionMatrix(spectrum, production, n);
    out := m.(precursors := precursors, sigmaF := sf, nuSigmaF := nsf, nuPromptSigmaF := npsf,
              nuDelayedSigmaF := ndsf, productionMatrix := m.productionMatrix + pm);
    e := None;
  }

  method FissionFromMatrix(m: Material) returns (out: Material, e: Option<Exception>)
    ensures (out, e) == FromMatrix(m)
  {
    var n := m.numGroups;
    if m.numPrecursors > 0 {
      return m, Some(RuntimeError);
    }
    if m.sigmaF == [] {
      return m, Some(LogicError);
    }
    var nsf := SumColumns(m.productionMatrix, n);
    out := m.(nuSigmaF := nsf);
    var g := 0;
    while g < n
      invariant 0 <= g <= n
      invariant forall l :: 0 <= l < g ==> var x := EstimatedYield(nsf, m.sigmaF, n)[l]; x == 0.0 || (1.0 < x < 10.0)
    {
      var nu := if At(m.sigmaF, g) > 0.0 then At(nsf, g) / At(m.sigmaF, g) else 0.0;
      if !(nu == 0.0 || (1.0 < nu < 10.0)) {
        assert EstimatedYield(nsf, m.sigmaF, n)[g] == nu;
        return out, Some(LogicError);
      }
      g := g + 1;
    }
    e := None;
  }

  method FinishReading(rd: Reading) returns (out: Material, e: Option<Exception>)
    ensures (out, e) == Finish(rd)
  {
    var m := rd.mat.(isFissionable := Fissionable(rd.mat));
    if !m.isFissionable {
      out := m.(sigmaF := [], nuSigmaF := [], nuPromptSigmaF := [], nuDelayedSigmaF := [], precursors := []);
      e := None;
    } else if m.productionMatrix == [] {
      out, e := FissionFromYields(m, rd.tmp);
    } else {
      out, e := FissionFromMatrix(m);
    }
    if e.None? && out.isFissionable && out.sigmaF == [] {
      e := Some(LogicError);
    }
  }

  /** SingleStateMGXS, restricted to the members the reader sets. */
  class SingleStateMGXS {
    var numGroups: nat
    var scatteringOrder: nat
    var numPrecursors: nat
    var precursors: seq<Precursor>
    var eBounds: seq<seq<real>>
    var invVelocity: seq<real>
    var sigmaT: seq<real>
    var sigmaA: seq<real>
    var sigmaF: seq<real>
    var nuSigmaF: seq<real>
    var nuPromptSigmaF: seq<real>
    var nuDelayedSigmaF: seq<real>
    var transferMatrices: seq<SparseMatrix>
    var productionMatrix: seq<seq<real>>
    var isFissionable: bool

    function Mat(): Material
      reads this
    {
      Material(numGroups, scatteringOrder, numPrecursors, precursors, eBounds, invVelocity,
               sigmaT, sigmaA, sigmaF, nuSigmaF, nuPromptSigmaF, nuDelayedSigmaF,
               transferMatrices, productionMatrix, isFissionable)
    }

    constructor()
      ensures Mat() == Cleared
    {
      numGroups, scatteringOrder, numPrecursors := 0, 0, 0;
      precursors, eBounds := [], [];
      invVelocity, sigmaT, sigmaA, sigmaF, nuSigmaF := [], [], [], [], [];
      nuPromptSigmaF, nuDelayedSigmaF := [], [];
      transferMatrices, productionMatrix := [], [];
      isFissionable := false;
    }

    method Store(m: Material)
      modifies this
      ensures Mat() == m
    {
      StoreCounts(m);
      StoreCrossSections(m);
      StoreMatrices(m);
    }

    method StoreCounts(m: Material)
      modifies this`numGroups, this`scatteringOrder, this`numPrecursors, this`precursors, this`eBounds
      ensures numGroups == m.numGroups && scatteringOrder == m.scatteringOrder && numPrecursors == m.numPrecursors
      ensures precursors == m.precursors && eBounds == m.eBounds
    {
      numGroups, scatteringOrder, numPrecursors := m.numGroups, m.scatteringOrder, m.numPrecursors;
      precursors, eBounds := m.precursors, m.eBounds;
    }

    method StoreCrossSections(m: Material)
      modifies this`invVelocity, this`sigmaT, this`sigmaA, this`sigmaF, this`nuSigmaF
      ensures invVelocity == m.invVelocity && sigmaT == m.sigmaT && sigmaA == m.sigmaA
      ensures sigmaF == m.sigmaF && nuSigmaF == m.nuSigmaF
    {
      invVelocity, sigmaT, sigmaA, sigmaF, nuSigmaF := m.invVelocity, m.sigmaT, m.sigmaA, m.sigmaF, m.nuSigmaF;
    }

    method StoreMatrices(m: Material)
      modifies this`nuPromptSigmaF, this`nuDelayedSigmaF, this`transferMatrices, this`productionMatrix, this`isFissionable
      ensures nuPromptSigmaF == m.nuPromptSigmaF && nuDelayedSigmaF == m.nuDelayedSigmaF
      ensures transferMatrices == m.transferMatrices && productionMatrix == m.productionMatrix
      ensures isFissionable == m.isFissionable
    {
      nuPromptSigmaF, nuDelayedSigmaF := m.nuPromptSigmaF, m.nuDelayedSigmaF;
      transferMatrices, productionMatrix, isFissionable := m.transferMatrices, m.productionMatrix, m.isFissionable;
    }

    /** MakeFromChiXSFile over the records of the file: Clear(), every
      * record in turn, then the fission data. At the first exception the
      * members hold the state before the failing record: the part of a block
      * the source has already stored when it throws is not modelled. */
    method MakeFromChiXSFile(records: seq<XSRecord>) returns (r: Result<()>)
      modifies this
      ensures var (rd, err) := ReadAll(Start, records);
        (err.Some? ==> r == Failure(err.value) && Mat() == rd.mat) &&
        (err.None? ==>
          Mat() == Finish(rd).0 &&
          r == (if Finish(rd).1.Some? then Failure(Finish(rd).1.value) else Success(())))
    {
      Store(Cleared);
      var rd := Start;
      var i := 0;
      while i < |records|
        invariant 0 <= i <= |records|
        invariant ReadAll(Start, records[..i]) == (rd, None)
        invariant Mat() == rd.mat
      {
        assert records[..i + 1][..i] == records[..i];
        var next := ReadRecord(rd, records[i]);
        if next.Failure? {
          ReadAllStops(Start, records, i + 1);
          return Failure(next.error);
        }
        rd := next.value;
        Store(rd.mat);
        i := i + 1;
      }
      assert records[..|records|] == records;
      var m, e := FinishReading(rd);
      Store(m);
      r := if e.Some? then Failure(e.value) else Success(());
    }
  }

  lemma {:induction false} ReadAllStops(rd: Reading, records: seq<XSRecord>, k: nat)
    requires k <= |records| && ReadAll(rd, records[..k]).1.Some?
    ensures ReadAll(rd, records) == ReadAll(rd, records[..k])
    decreases |records| - k
  {
    if k < |records| {
      assert records[..k + 1][..k] == records[..k];
      ReadAllStops(rd, records, k + 1);
    } else {
      assert records[..k] == records;
    }
  }
}
