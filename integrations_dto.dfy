/** internal/integrations/dto/datasources.go: the integration record kept in
    the integrations store, and its identity comparison. */
module IntegrationsDto {
  import opened Wrappers

  /** The `IntegrationType` values. */
  const PrometheusIntegrationType: string := "PROMETHEUS"
  const DatadogIntegrationType: string := "DATADOG"

  /** Optional basic-auth credentials (`*string` fields). */
  datatype Authentication = Authentication(password: Option<string>, username: Option<string>)

  datatype Integration = Integration(
    id: string,
    alias: string,
    integrationType: string,
    url: string,
    authentication: Authentication,
    level: string,
    createdAt: string,
    updatedAt: string,
    deleted: bool,
    disabled: bool,
    metricServer: bool)

  /** `d.Equals(other)`: two integrations are the same integration when their
      ids are equal. The argument is typed as an Integration here; in Go a
      comparable of another type would make the type assertion panic. */
  function Equals(d: Integration, other: Integration): (r: bool)
    ensures d == other ==> r
  {
    d.id == other.id
  }

  /** Equals holds exactly when the ids agree, whatever the other fields. */
  lemma EqualsIffSameId(d: Integration, other: Integration)
    ensures Equals(d, other) <==> d.id == other.id
    ensures forall d': Integration :: d'.id == d.id ==> (Equals(d', other) <==> Equals(d, other))
  {
  }

  /** Equals is an equivalence relation. */
  lemma EqualsIsEquivalence(a: Integration, b: Integration, c: Integration)
    ensures Equals(a, a)
    ensures Equals(a, b) ==> Equals(b, a)
    ensures Equals(a, b) && Equals(b, c) ==> Equals(a, c)
  {
  }

  /** Two integrations differing in every field but the id are equal. */
  lemma EqualsIgnoresOtherFields(d: Integration, url: string, deleted: bool, disabled: bool)
    ensures Equals(d, d.(url := url, deleted := deleted, disabled := disabled, alias := url))
  {
  }
}
