/**
 * Policies that choose the next arm (grasp candidate) of a discrete bandit to
 * evaluate: uniform, greedy on the posterior mean, Thompson sampling, and the
 * Beta-Bernoulli Gittins index with discount 0.98.
 *
 * The predictive model is an external collaborator; a policy sees only what it
 * reads from it during one call, captured here as a `DiscreteModel` value.
 */
module DiscreteSelectionPolicies {
  import opened Wrappers
  import opened ArgMax
  import opened GittinsIndex

  /** Posterior pseudo-counts of a Beta-Bernoulli model, one alpha and one beta per arm. */
  datatype BetaPosterior = BetaPosterior(alphas: seq<real>, betas: seq<real>)

  /**
   * What the policies read from a predictive model: `num_vars()`, the draw that
   * `sample()` returns on this call, the tied indices of `max_prediction()`, and,
   * exactly when the model is a `BetaBernoulliModel`, its posterior parameters.
   */
  datatype DiscreteModel = DiscreteModel(
    numVars: nat,
    sample: seq<real>,
    maxIndices: seq<nat>,
    posterior: Option<BetaPosterior>)

  /** Any object handed to a policy: a discrete predictive model, or something else. */
  datatype ModelObject = Discrete(model: DiscreteModel) | Foreign

  datatype PolicyError =
    | ModelNotSet         // choose_next before a model is attached
    | NotADiscreteModel   // set_model given something that is not a DiscreteModel
    | NotBetaBernoulli    // the Gittins policy attached to another kind of model
    | MissingModelMethod  // the attached object has no num_vars/sample/max_prediction
    | NoCandidates        // np.random.choice(0) or np.max of an empty array

  /** The four policies; the Gittins policy carries its lookup table, loaded once. */
  datatype Variant = Uniform | Max | Thompson | GittinsIndex98(indices: seq<seq<real>>)

  /** A model as the adaptive-sampling loop maintains it: every per-arm sequence has one entry per arm. */
  predicate WellFormedModel(m: DiscreteModel) {
    && |m.sample| == m.numVars
    && (forall k :: 0 <= k < |m.maxIndices| ==> m.maxIndices[k] < m.numVars)
    && (m.posterior.Some? ==>
          |m.posterior.value.alphas| == m.numVars &&
          CastableCounts(m.posterior.value.alphas, m.posterior.value.betas))
  }

  /** The posterior pseudo-counts, when the attached object is a Beta-Bernoulli model. */
  function BetaPosteriorOf(model: Option<ModelObject>): Option<BetaPosterior> {
    if model.Some? && model.value.Discrete? then model.value.model.posterior else None
  }

  /** What the Gittins lookup needs of a Beta-Bernoulli model's counts. */
  predicate PosteriorCountsCastable(model: Option<ModelObject>) {
    BetaPosteriorOf(model).Some? ==>
      CastableCounts(BetaPosteriorOf(model).value.alphas, BetaPosteriorOf(model).value.betas)
  }

  /** The model every policy but the Gittins one reads from, or why it cannot. */
  function Attached(model: Option<ModelObject>): (r: Result<DiscreteModel, PolicyError>)
    ensures r.Success? <==> model.Some? && model.value.Discrete?
    ensures r.Success? ==> model == Some(Discrete(r.value))
    ensures model.None? ==> r == Failure(ModelNotSet)
    ensures model == Some(Foreign) ==> r == Failure(MissingModelMethod)
  {
    match model
    case None => Failure(ModelNotSet)
    case Some(Foreign) => Failure(MissingModelMethod)
    case Some(Discrete(m)) => Success(m)
  }

  /** Uniform policy: `np.random.choice(num_vars)`. */
  function UniformChooseNext(model: Option<ModelObject>, draw: nat): (r: Result<nat, PolicyError>)
    ensures Attached(model).Failure? ==> r == Failure(Attached(model).error)
    ensures r.Success? <==> Attached(model).Success? && Attached(model).value.numVars > 0
    ensures Attached(model).Success? ==>
      (r == Failure(NoCandidates) <==> Attached(model).value.numVars == 0) &&
      (r.Success? ==> r.value < Attached(model).value.numVars)
  {
    match Attached(model)
    case Failure(e) => Failure(e)
    case Success(m) => if m.numVars == 0 then Failure(NoCandidates) else Success(Draw(m.numVars, draw))
  }

  /** Greedy policy: a random member of the tied indices `max_prediction()` reports. */
  function MaxChooseNext(model: Option<ModelObject>, draw: nat): (r: Result<nat, PolicyError>)
    ensures Attached(model).Failure? ==> r == Failure(Attached(model).error)
    ensures r.Success? <==> Attached(model).Success? && |Attached(model).value.maxIndices| > 0
    ensures Attached(model).Success? ==>
      (r == Failure(NoCandidates) <==> |Attached(model).value.maxIndices| == 0) &&
      (r.Success? ==> r.value in Attached(model).value.maxIndices)
  {
    match Attached(model)
    case Failure(e) => Failure(e)
    case Success(m) => if |m.maxIndices| == 0 then Failure(NoCandidates) else Success(Choice(m.maxIndices, draw))
  }

  /** Thompson sampling: a random index among those where the posterior draw is largest. */
  function ThompsonChooseNext(model: Option<ModelObject>, draw: nat): (r: Result<nat, PolicyError>)
    ensures Attached(model).Failure? ==> r == Failure(Attached(model).error)
    ensures r.Success? <==> Attached(model).Success? && |Attached(model).value.sample| > 0
    ensures Attached(model).Success? ==>
      var s := Attached(model).value.sample;
      (r == Failure(NoCandidates) <==> |s| == 0) &&
      (r.Success? ==> r.value < |s| && forall j :: 0 <= j < |s| ==> s[j] <= s[r.value])
  {
    match Attached(model)
    case Failure(e) => Failure(e)
    case Success(m) =>
      if |m.sample| == 0 then Failure(NoCandidates)
      else
        TieBreakIsArgMax(m.sample, draw);
        Success(Choice(Ties(m.sample), draw))
  }

  /**
   * Gittins-index policy: a random arm among those whose looked-up index is
   * largest. Only a Beta-Bernoulli model is accepted.
   */
  function GittinsChooseNext(table: seq<seq<real>>, model: Option<ModelObject>, draw: nat)
      : (r: Result<nat, PolicyError>)
    requires WellFormedTable(table)
    requires PosteriorCountsCastable(model)
    ensures model.None? ==> r == Failure(ModelNotSet)
    ensures model.Some? && BetaPosteriorOf(model).None? ==> r == Failure(NotBetaBernoulli)
    ensures r.Success? <==> BetaPosteriorOf(model).Some? && |BetaPosteriorOf(model).value.alphas| > 0
    ensures BetaPosteriorOf(model).Some? ==>
      var p := BetaPosteriorOf(model).value;
      var s := Scores(table, p.alphas, p.betas);
      (r == Failure(NoCandidates) <==> |p.alphas| == 0) &&
      (r.Success? ==> r.value < |p.alphas| && forall j :: 0 <= j < |s| ==> s[j] <= s[r.value])
  {
    if model.None? then Failure(ModelNotSet)
    else if BetaPosteriorOf(model).None? then Failure(NotBetaBernoulli)
    else
      var p := BetaPosteriorOf(model).value;
      var s := Scores(table, p.alphas, p.betas);
      if |s| == 0 then Failure(NoCandidates)
      else
        TieBreakIsArgMax(s, draw);
        Success(Choice(Ties(s), draw))
  }

  /** What a policy of the given variant may be asked to run on. */
  predicate Runnable(variant: Variant, model: Option<ModelObject>) {
    variant.GittinsIndex98? ==> WellFormedTable(variant.indices) && PosteriorCountsCastable(model)
  }

  /** `choose_next()` of each variant. */
  function Select(variant: Variant, model: Option<ModelObject>, draw: nat): (r: Result<nat, PolicyError>)
    requires Runnable(variant, model)
    ensures model.None? ==> r == Failure(ModelNotSet)
    ensures model.Some? && model.value.Foreign? ==> r.Failure?
  {
    match variant
    case Uniform => UniformChooseNext(model, draw)
    case Max => MaxChooseNext(model, draw)
    case Thompson => ThompsonChooseNext(model, draw)
    case GittinsIndex98(table) => GittinsChooseNext(table, model, draw)
  }

  class DiscreteSelectionPolicy {
    const variant: Variant
    var model: Option<ModelObject>

    /** The Gittins lookup table is well formed; it is fixed at construction. */
    predicate Valid() {
      variant.GittinsIndex98? ==> WellFormedTable(variant.indices)
    }

    /** The model is stored unchecked, as the source's `__init__` does. */
    constructor (variant: Variant, model: Option<ModelObject>)
      requires variant.GittinsIndex98? ==> WellFormedTable(variant.indices)
      ensures Valid()
      ensures this.variant == variant && this.model == model
    {
      this.variant := variant;
      this.model := model;
    }

    /** Attach a model; anything that is not a discrete predictive model is refused. */
    method SetModel(candidate: ModelObject) returns (r: Result<(), PolicyError>)
      modifies this`model
      ensures candidate.Foreign? ==> r == Failure(NotADiscreteModel) && model == old(model)
      ensures candidate.Discrete? ==> r == Success(()) && model == Some(candidate)
    {
      if candidate.Foreign? {
        return Failure(NotADiscreteModel);
      }
      model := Some(candidate);
      r := Success(());
    }

    /**
     * Choose the next arm to sample, for the random value `draw`. The model is
     * only read, so the policy and the model are left as they were.
     */
    method ChooseNext(draw: nat) returns (r: Result<nat, PolicyError>)
      requires Valid()
      requires variant.GittinsIndex98? ==> PosteriorCountsCastable(model)
      ensures r == Select(variant, model, draw)
    {
      match variant
      case Uniform => r := UniformChooseNext(model, draw);
      case Max => r := MaxChooseNext(model, draw);
      case Thompson => r := ThompsonChooseNext(model, draw);
      case GittinsIndex98(table) =>
        if model.None? {
          r := Failure(ModelNotSet);
        } else if BetaPosteriorOf(model).None? {
          r := Failure(NotBetaBernoulli);
        } else {
          var p := BetaPosteriorOf(model).value;
          var scores := LookupScores(table, p.alphas, p.betas);
          if |scores| == 0 {
            r := Failure(NoCandidates);
          } else {
            r := Success(Choice(Ties(scores), draw));
          }
        }
    }
  }

  /**
   * On a well-formed model with at least one arm every policy returns an arm
   * index in range, unless it has nothing to choose from (the greedy policy
   * with no reported index) or the model is of the wrong kind (the Gittins
   * policy on a model that is not Beta-Bernoulli).
   */
  lemma {:induction false} ChosenArmInRange(variant: Variant, m: DiscreteModel, draw: nat)
    requires WellFormedModel(m)
    requires variant.GittinsIndex98? ==> WellFormedTable(variant.indices)
    ensures Runnable(variant, Some(Discrete(m)))
    ensures var r := Select(variant, Some(Discrete(m)), draw);
      r.Success? ==> r.value < m.numVars
    ensures (m.numVars > 0 && (variant.Max? ==> |m.maxIndices| > 0) &&
             (variant.GittinsIndex98? ==> m.posterior.Some?))
            ==> Select(variant, Some(Discrete(m)), draw).Success?
  {
    var r := Select(variant, Some(Discrete(m)), draw);
    if r.Success? && variant.Max? {
      var k :| 0 <= k < |m.maxIndices| && m.maxIndices[k] == r.value;
    }
  }

  /** Uniform policy: every arm is the choice for some draw. */
  lemma {:induction false} UniformReachesEveryArm(m: DiscreteModel, i: nat)
    requires i < m.numVars
    ensures exists draw: nat :: UniformChooseNext(Some(Discrete(m)), draw) == Success(i)
  {
    DrawCovers(m.numVars, i);
    var draw: nat :| Draw(m.numVars, draw) == i;
    assert UniformChooseNext(Some(Discrete(m)), draw) == Success(i);
  }

  /** Greedy policy: every index tied at the maximum mean is the choice for some draw. */
  lemma {:induction false} MaxReachesEveryTiedArm(m: DiscreteModel, i: nat)
    requires i in m.maxIndices
    ensures exists draw: nat :: MaxChooseNext(Some(Discrete(m)), draw) == Success(i)
  {
    ChoiceCovers(m.maxIndices, i);
    var draw: nat :| Choice(m.maxIndices, draw) == i;
    assert MaxChooseNext(Some(Discrete(m)), draw) == Success(i);
  }

  /** Thompson sampling: every index where the draw is largest is the choice for some draw. */
  lemma {:induction false} ThompsonReachesEveryTiedArm(m: DiscreteModel, i: nat)
    requires i < |m.sample|
    requires forall j :: 0 <= j < |m.sample| ==> m.sample[j] <= m.sample[i]
    ensures exists draw: nat :: ThompsonChooseNext(Some(Discrete(m)), draw) == Success(i)
  {
    assert m.sample[i] == MaxOf(m.sample);
    TieBreakReachesEveryMaximum(m.sample, i);
    var draw: nat :| Choice(Ties(m.sample), draw) == i;
    assert ThompsonChooseNext(Some(Discrete(m)), draw) == Success(i);
  }

  /** Gittins policy: every arm whose index is largest is the choice for some draw. */
  lemma {:induction false} GittinsReachesEveryTiedArm(table: seq<seq<real>>, m: DiscreteModel, i: nat)
    requires WellFormedTable(table)
    requires m.posterior.Some?
    requires CastableCounts(m.posterior.value.alphas, m.posterior.value.betas)
    requires i < |m.posterior.value.alphas|
    requires var s := Scores(table, m.posterior.value.alphas, m.posterior.value.betas);
      forall j :: 0 <= j < |s| ==> s[j] <= s[i]
    ensures exists draw: nat :: GittinsChooseNext(table, Some(Discrete(m)), draw) == Success(i)
  {
    var s := Scores(table, m.posterior.value.alphas, m.posterior.value.betas);
    assert s[i] == MaxOf(s);
    TieBreakReachesEveryMaximum(s, i);
    var draw: nat :| Choice(Ties(s), draw) == i;
    assert GittinsChooseNext(table, Some(Discrete(m)), draw) == Success(i);
  }

  /** Gittins policy: an arm whose index is strictly largest is chosen whatever the draw. */
  lemma {:induction false} GittinsUniqueMaximumIsChosen(table: seq<seq<real>>, m: DiscreteModel, i: nat, draw: nat)
    requires WellFormedTable(table)
    requires m.posterior.Some?
    requires CastableCounts(m.posterior.value.alphas, m.posterior.value.betas)
    requires i < |m.posterior.value.alphas|
    requires var s := Scores(table, m.posterior.value.alphas, m.posterior.value.betas);
      forall j :: 0 <= j < |s| && j != i ==> s[j] < s[i]
    ensures GittinsChooseNext(table, Some(Discrete(m)), draw) == Success(i)
  {
    UniqueMaximumIsChosen(Scores(table, m.posterior.value.alphas, m.posterior.value.betas), i, draw);
  }
}
