/** The idea-creation form: the cluster choices, the default cluster, the field
    updates, the required-field check and the record handed to the store. */
module IdeaForm {
  import opened Domain
  import opened Strings
  import Lists
  import Sorting

  // ---------------------------------------------------------------- cluster choices

  /** The clusters of the records with empty ones dropped: `map(cluster).filter(Boolean)`. */
  function NonEmptyClusters(services: seq<Service>): (r: seq<string>)
    ensures forall x :: x in r <==> x != "" && exists s :: s in services && s.cluster == x
  {
    if services == [] then []
    else
      var init := NonEmptyClusters(services[..|services| - 1]);
      var last := services[|services| - 1];
      assert forall s :: s in services <==> s in services[..|services| - 1] || s == last;
      if last.cluster != "" then init + [last.cluster] else init
  }

  /** The comparison of `Array.prototype.sort` without a comparator. */
  function CodeUnitCompare(a: string, b: string): int
  {
    if a == b then 0 else if CodeUnitLeq(a, b) then -1 else 1
  }

  function CodeUnitOrder(): (string, string) -> int
  {
    (a: string, b: string) => CodeUnitCompare(a, b)
  }

  /** `uniqueClusters`. The ranking screen builds its cluster filter options the same way. */
  function UniqueClusters(services: seq<Service>): seq<string>
  {
    Sorting.SortBy(Lists.Dedup(NonEmptyClusters(services)), CodeUnitOrder())
  }

  lemma CodeUnitOrderConsistent(s: seq<string>)
    ensures Sorting.AntisymmetricOn(s, CodeUnitOrder())
    ensures Sorting.TransitiveOn(s, CodeUnitOrder())
  {
    forall a, b | CodeUnitOrder()(a, b) > 0 ensures CodeUnitOrder()(b, a) < 0 {
      CodeUnitLeqTotal(a, b);
    }
    forall a, b, c | CodeUnitOrder()(a, b) <= 0 && CodeUnitOrder()(b, c) <= 0
      ensures CodeUnitOrder()(a, c) <= 0
    {
      if a != b && b != c {
        CodeUnitLeqTransitive(a, b, c);
      }
    }
  }

  /** The cluster choices are exactly the non-empty clusters in use. */
  lemma UniqueClustersMembership(services: seq<Service>, x: string)
    ensures x in UniqueClusters(services) <==> x != "" && exists s :: s in services && s.cluster == x
  {
    Sorting.SortByMembership(Lists.Dedup(NonEmptyClusters(services)), CodeUnitOrder(), x);
  }

  /** Each cluster is offered once. */
  lemma UniqueClustersDistinct(services: seq<Service>)
    ensures Lists.Distinct(UniqueClusters(services))
  {
    var d := Lists.Dedup(NonEmptyClusters(services));
    Lists.DedupDistinct(NonEmptyClusters(services));
    SortKeepsDistinct(d, CodeUnitOrder());
  }

  lemma SortKeepsDistinct<T>(s: seq<T>, cmp: (T, T) -> int)
    requires Lists.Distinct(s)
    ensures Lists.Distinct(Sorting.SortBy(s, cmp))
  {
    Sorting.SortByPermutation(s, cmp);
    Lists.DistinctIffSingleCounts(s);
    Lists.DistinctIffSingleCounts(Sorting.SortBy(s, cmp));
  }

  /** The clusters are offered in strictly increasing code-unit order. */
  lemma UniqueClustersOrdered(services: seq<Service>)
    ensures var r := UniqueClusters(services);
      forall i, j :: 0 <= i < j < |r| ==> CodeUnitLeq(r[i], r[j]) && r[i] != r[j]
  {
    var d := Lists.Dedup(NonEmptyClusters(services));
    var r := UniqueClusters(services);
    UniqueClustersDistinct(services);
    CodeUnitOrderConsistent(d);
    Sorting.SortByOrdered(d, CodeUnitOrder());
    forall i, j | 0 <= i < j < |r| ensures CodeUnitLeq(r[i], r[j]) && r[i] != r[j] {
      assert CodeUnitOrder()(r[i], r[j]) <= 0;
    }
  }

  /** The default-cluster effect: an empty choice takes the first cluster, if there is one. */
  function DefaultCluster(current: string, clusters: seq<string>): string
  {
    if current == "" && |clusters| > 0 then clusters[0] else current
  }

  lemma DefaultClusterSpec(current: string, clusters: seq<string>)
    ensures current != "" ==> DefaultCluster(current, clusters) == current
    ensures current == "" && clusters != [] ==> DefaultCluster(current, clusters) == clusters[0]
    ensures clusters == [] ==> DefaultCluster(current, clusters) == current
    ensures DefaultCluster(DefaultCluster(current, clusters), clusters) == DefaultCluster(current, clusters)
  {
  }

  // ---------------------------------------------------------------- the form

  /** The form fields: name, benefit, audience, business model, cluster, author. */
  datatype FormData = FormData(
    service: string,
    beneficio: string,
    publico: string,
    modelo: string,
    cluster: string,
    creatorName: string)

  datatype FieldName = ServiceField | BeneficioField | PublicoField | ModeloField | ClusterField | CreatorField

  /** `{...prev, [name]: value}`. */
  function SetField(f: FormData, name: FieldName, value: string): FormData
  {
    match name
    case ServiceField => f.(service := value)
    case BeneficioField => f.(beneficio := value)
    case PublicoField => f.(publico := value)
    case ModeloField => f.(modelo := value)
    case ClusterField => f.(cluster := value)
    case CreatorField => f.(creatorName := value)
  }

  function FieldValue(f: FormData, name: FieldName): string
  {
    match name
    case ServiceField => f.service
    case BeneficioField => f.beneficio
    case PublicoField => f.publico
    case ModeloField => f.modelo
    case ClusterField => f.cluster
    case CreatorField => f.creatorName
  }

  /** A field change stores the value in the named field and nowhere else. */
  lemma SetFieldSpec(f: FormData, name: FieldName, value: string, other: FieldName)
    ensures FieldValue(SetField(f, name, value), name) == value
    ensures other != name ==> FieldValue(SetField(f, name, value), other) == FieldValue(f, other)
  {
  }

  /** The empty form: the first business-model category and the signed-in user's name. */
  function InitialForm(userName: Option<string>, firstModel: string): FormData
  {
    FormData("", "", "", firstModel, "", userName.GetOr(""))
  }

  /** The required-field check as written: the raw values must be non-empty. */
  predicate RequiredFilled(f: FormData)
  {
    f.service != "" && f.beneficio != "" && f.publico != "" && f.cluster != "" && f.modelo != ""
  }

  /** The check as intended: the text fields must be non-empty once trimmed. */
  predicate RequiredFilledTrimmed(f: FormData)
  {
    Trim(f.service) != "" && Trim(f.beneficio) != "" && Trim(f.publico) != "" && f.cluster != "" && f.modelo != ""
  }

  /** The record handed to the store: id, date, scores and revenue are left to it. */
  datatype NewService = NewService(
    service: string,
    need: string,
    targetAudience: string,
    businessModel: string,
    cluster: string,
    status: Status,
    creatorName: Option<string>)

  /** `newService`: the text fields trimmed, status `avaliação`, the author's
      trimmed name or, when that is empty, the signed-in user's name. */
  function BuildNewService(f: FormData, userName: Option<string>): NewService
  {
    var author := Trim(f.creatorName);
    NewService(Trim(f.service), Trim(f.beneficio), Trim(f.publico), f.modelo, f.cluster, Avaliacao,
      if author != "" then Some(author) else userName)
  }

  /** The new record is under evaluation, has no white space around its text
      fields, takes the model and cluster as chosen, and names the author typed
      in or else the signed-in user. */
  lemma BuildNewServiceSpec(f: FormData, userName: Option<string>)
    ensures var r := BuildNewService(f, userName);
      && r.status == Avaliacao
      && r.businessModel == f.modelo && r.cluster == f.cluster
      && (exists k :: TrimmedAt(f.service, r.service, k))
      && (exists k :: TrimmedAt(f.beneficio, r.need, k))
      && (exists k :: TrimmedAt(f.publico, r.targetAudience, k))
      && (TrimmedAll(f.creatorName) ==> r.creatorName == userName)
      && (!TrimmedAll(f.creatorName) ==> r.creatorName.Some? && exists k :: TrimmedAt(f.creatorName, r.creatorName.value, k))
  {
    TrimSpec(f.service);
    TrimSpec(f.beneficio);
    TrimSpec(f.publico);
    TrimSpec(f.creatorName);
    TrimEmptyIff(f.creatorName);
  }

  /** The string is white space only. */
  predicate TrimmedAll(s: string)
  {
    forall i :: 0 <= i < |s| ==> IsWhitespace(s[i])
  }

  /** A record name of a single space passes the check as written and is stored as the empty name. */
  lemma WhitespaceNameAccepted()
    ensures var f := FormData(" ", "b", "p", "m", "c", "");
      RequiredFilled(f) && BuildNewService(f, None).service == ""
  {
    TrimEmptyIff(" ");
  }

  /** With the intended check, the stored name, benefit and audience are never empty. */
  lemma TrimmedCheckKeepsTextFields(f: FormData, userName: Option<string>)
    requires RequiredFilledTrimmed(f)
    ensures var r := BuildNewService(f, userName);
      r.service != "" && r.need != "" && r.targetAudience != "" && r.cluster != "" && r.businessModel != ""
  {
  }

  /** The intended check is stricter than the written one. */
  lemma TrimmedCheckImpliesRaw(f: FormData)
    requires RequiredFilledTrimmed(f)
    ensures RequiredFilled(f)
  {
  }

  const RequiredFieldsMessage := "Por favor, preencha todos os campos obrigatórios."
  const AddFailedMessage := "Falha ao adicionar a ideia. Verifique a conexão e tente novamente."

  class IdeaGenerator {
    var formData: FormData
    var error: string
    var isSubmitting: bool
    /** The signed-in user's name, if any. */
    const userName: Option<string>
    /** The first business-model category. */
    const firstModel: string

    constructor (userName: Option<string>, firstModel: string)
      ensures this.userName == userName && this.firstModel == firstModel
      ensures formData == InitialForm(userName, firstModel) && error == "" && !isSubmitting
    {
      this.userName := userName;
      this.firstModel := firstModel;
      formData := InitialForm(userName, firstModel);
      error := "";
      isSubmitting := false;
    }

    /** The default-cluster effect over the current cluster choices. */
    method ApplyDefaultCluster(clusters: seq<string>)
      modifies this
      ensures formData == old(formData).(cluster := DefaultCluster(old(formData).cluster, clusters))
      ensures error == old(error) && isSubmitting == old(isSubmitting)
    {
      formData := formData.(cluster := DefaultCluster(formData.cluster, clusters));
    }

    /** `handleChange`. */
    method Change(name: FieldName, value: string)
      modifies this
      ensures formData == SetField(old(formData), name, value)
      ensures error == old(error) && isSubmitting == old(isSubmitting)
    {
      formData := SetField(formData, name, value);
    }

    /** `handleAddIdea` as written. `addSucceeds` is the store's answer. The
        result is the record handed to the store, if the check let one through.
        A failed check sets the required-fields message and touches nothing
        else; a success resets the form and clears the message; a failure keeps
        the form and sets the failure message. */
    method AddIdea(addSucceeds: bool) returns (sent: Option<NewService>)
      modifies this
      ensures !RequiredFilled(old(formData)) ==>
        sent == None && error == RequiredFieldsMessage && formData == old(formData) && isSubmitting == old(isSubmitting)
      ensures RequiredFilled(old(formData)) ==>
        && sent == Some(BuildNewService(old(formData), userName))
        && !isSubmitting
        && (addSucceeds ==> formData == InitialForm(userName, firstModel) && error == "")
        && (!addSucceeds ==> formData == old(formData) && error == AddFailedMessage)
    {
      if !RequiredFilled(formData) {
        error := RequiredFieldsMessage;
        return None;
      }
      isSubmitting := true;
      error := "";
      sent := Some(BuildNewService(formData, userName));
      if addSucceeds {
        formData := InitialForm(userName, firstModel);
        error := "";
      } else {
        error := AddFailedMessage;
      }
      isSubmitting := false;
    }

    /** `handleAddIdea` with the intended check on trimmed values: a record that
        reaches the store always has a non-empty name, benefit and audience. */
    method AddIdeaChecked(addSucceeds: bool) returns (sent: Option<NewService>)
      modifies this
      ensures !RequiredFilledTrimmed(old(formData)) ==>
        sent == None && error == RequiredFieldsMessage && formData == old(formData) && isSubmitting == old(isSubmitting)
      ensures RequiredFilledTrimmed(old(formData)) ==>
        && sent == Some(BuildNewService(old(formData), userName))
        && !isSubmitting
        && (addSucceeds ==> formData == InitialForm(userName, firstModel) && error == "")
        && (!addSucceeds ==> formData == old(formData) && error == AddFailedMessage)
      ensures sent.Some? ==> sent.value.service != "" && sent.value.need != "" && sent.value.targetAudience != ""
    {
      if !RequiredFilledTrimmed(formData) {
        error := RequiredFieldsMessage;
        return None;
      }
      isSubmitting := true;
      error := "";
      sent := Some(BuildNewService(formData, userName));
      if addSucceeds {
        formData := InitialForm(userName, firstModel);
        error := "";
      } else {
        error := AddFailedMessage;
      }
      isSubmitting := false;
    }
  }
}
