# GitHubSource status model

A Dafny model of the readiness state machine of the Knative GitHub event source
(`GitHubSourceStatus` in `pkg/apis/sources/v1alpha1/githubsource_types.go`) and
of the two CloudEvent attribute builders in the same file.

A GitHub source tracks three prerequisites, each a tri-state condition (True,
False or Unknown, with a reason and a message):

- `SecretsProvided`: the access and secret tokens are valid;
- `SinkProvided`: the sink has resolved to a URI;
- `WebhookConfigured`: the webhook is registered with GitHub.

The aggregate `Ready` condition is derived from them. The status record is the
class `GitHubSourceTypes.GitHubSourceStatus`. Its fields are the conditions
(a map from condition type to condition), the sink URI (`None` for nil) and
the webhook ID. Its methods change the record in place, as the Go methods with
pointer receivers do. Each mark method sets one dependent and then recomputes
`Ready`. Each method's `ensures` states the whole new state, and that `Ready`
agrees with the three dependents afterwards (`ReadyConsistent`).

The condition set and its manager (`apis.NewLivingConditionSet`, `Manage(s)`,
`MarkTrue`, `MarkFalse`, `MarkUnknown`, `InitializeConditions`, `IsHappy`)
live in `knative.dev/pkg/apis`. That library is not part of this model. The
module `Conditions` writes out the behaviour this file relies on as explicit
functions over a `ConditionSet` value:

- a dependent that is absent counts as neither True nor False, that is, as Unknown;
- after every mark, `Ready` is False if some dependent is False, else Unknown if
  some dependent is not True, else True (`AggregateStatus`, the reference definition);
- `Ready` copies the condition (reason and message) of the first dependent, in
  declared order, that decided its status (`Aggregate`). This tie-break is a
  choice of the model. It is not claimed to be the library's rule, and every
  property about `Ready` in the GitHub module is stated about its status only.

`InitializeConditions` gives `Ready` and every dependent that is absent the
status Unknown, with empty reason and message, and leaves present conditions
alone.

`GitHubEventType` and `GitHubEventSource` join a fixed prefix and their
argument with "." and "/". Both are proved injective through an inverse
(`StripPrefix`) and round-trip lemmas.

## Model

| member | source | states |
|---|---|---|
| `Conditions.FirstWithStatus` | pkg/apis/sources/v1alpha1/githubsource_types.go:148-151 | the scan over the dependents in declared order: the index found has the wanted status and no earlier dependent has it; no index means no dependent has it |
| `Conditions.Aggregate` | pkg/apis/sources/v1alpha1/githubsource_types.go:148-151 | the computed Ready condition has the reference status (True iff all dependents True, else False iff some False, else Unknown); when not True it is the condition of one of the dependents |
| `Conditions.AggregateCopiesFirstFalse` | pkg/apis/sources/v1alpha1/githubsource_types.go:148-151 | with some dependent False, Ready carries the condition of the first False dependent in declared order |
| `Conditions.AggregateCopiesFirstUnknown` | pkg/apis/sources/v1alpha1/githubsource_types.go:148-151 | with no dependent False, Ready carries the condition of the first Unknown dependent in declared order |
| `Conditions.Recompute` | pkg/apis/sources/v1alpha1/githubsource_types.go:148-151 | storing the aggregate makes the record consistent (no drift) and changes no other condition |
| `Conditions.IsHappy` | pkg/apis/sources/v1alpha1/githubsource_types.go:190-192 | on a consistent record, happy exactly when every dependent is True; happy implies Ready is present |
| `Conditions.MarkTrue` | pkg/apis/sources/v1alpha1/githubsource_types.go:200-202 | sets only the marked dependent to True and recomputes Ready; the record is consistent and happy exactly when every other dependent was already True |
| `Conditions.MarkFalse` | pkg/apis/sources/v1alpha1/githubsource_types.go:205-207 | sets only the marked dependent to False with the given reason and message; Ready becomes False whatever the other dependents are |
| `Conditions.MarkUnknown` | pkg/apis/sources/v1alpha1/githubsource_types.go:215-216 | sets only the marked dependent to Unknown with the given reason and message; Ready is not True, and it is False exactly when another dependent is False (False dominates Unknown) |
| `Conditions.InitializeConditions` | pkg/apis/sources/v1alpha1/githubsource_types.go:194-197 | Ready and every dependent end up present; present conditions are untouched; each added one is Unknown |
| `Conditions.InitializeIdempotent` | pkg/apis/sources/v1alpha1/githubsource_types.go:194-197 | initializing twice gives the same conditions as initializing once |
| `Conditions.InitializeConsistent` | pkg/apis/sources/v1alpha1/githubsource_types.go:194-197 | initializing a fresh record or a consistent one leaves Ready in agreement with the dependents |
| `Conditions.MarkAllTrue` | pkg/apis/sources/v1alpha1/githubsource_types.go:199-233 | after any non-empty sequence of True marks the record is consistent |
| `Conditions.MarkAllTrueKeepsTrue` | pkg/apis/sources/v1alpha1/githubsource_types.go:199-233 | a dependent that is True, or is marked True at some point of the sequence, is still True at its end |
| `Conditions.MarkAllTrueHappy` | pkg/apis/sources/v1alpha1/githubsource_types.go:148-151 | marking every dependent True, in any order and from any prior state, makes the record happy |
| `GitHubSourceTypes.GitHubEventType` | pkg/apis/sources/v1alpha1/githubsource_types.go:112-114 | the event type is the prefix "dev.knative.source.github", then ".", then the GitHub event name |
| `GitHubSourceTypes.GitHubEventSource` | pkg/apis/sources/v1alpha1/githubsource_types.go:118-120 | the event source is the prefix "https://github.com", then "/", then the owner and repository |
| `GitHubSourceTypes.EventTypeRoundTrip` | pkg/apis/sources/v1alpha1/githubsource_types.go:112-114 | stripping the prefix and "." from an event type gives back the event name, and only event types built this way strip to it |
| `GitHubSourceTypes.EventSourceRoundTrip` | pkg/apis/sources/v1alpha1/githubsource_types.go:118-120 | stripping the prefix and "/" from an event source gives back the owner and repository, and only sources built this way strip to it |
| `GitHubSourceTypes.GitHubEventTypeInjective` | pkg/apis/sources/v1alpha1/githubsource_types.go:103-114 | distinct event names give distinct event types |
| `GitHubSourceTypes.GitHubEventSourceInjective` | pkg/apis/sources/v1alpha1/githubsource_types.go:107-120 | distinct owners or repositories give distinct event sources |
| `GitHubSourceTypes.GitHubReadyIffAllProvided` | pkg/apis/sources/v1alpha1/githubsource_types.go:148-151 | for the GitHub catalog, a consistent record is happy exactly when SecretsProvided, SinkProvided and WebhookConfigured are all True |
| `GitHubSourceTypes.GitHubSourceStatus.constructor` | pkg/apis/sources/v1alpha1/githubsource_types.go:156-168 | the zero status record: no conditions, nil sink URI, empty webhook ID |
| `GitHubSourceTypes.GitHubSourceStatus.GetCondition` | pkg/apis/sources/v1alpha1/githubsource_types.go:185-187 | the condition recorded for the type, or None when there is none |
| `GitHubSourceTypes.GitHubSourceStatus.IsReady` | pkg/apis/sources/v1alpha1/githubsource_types.go:190-192 | on a consistent record, ready exactly when all three dependents are True; ready implies Ready is present |
| `GitHubSourceTypes.GitHubSourceStatus.InitializeConditions` | pkg/apis/sources/v1alpha1/githubsource_types.go:195-197 | adds Ready and the three dependents where absent, as Unknown; keeps present conditions, sink URI and webhook ID; a fresh or consistent record stays consistent |
| `GitHubSourceTypes.GitHubSourceStatus.MarkSecrets` | pkg/apis/sources/v1alpha1/githubsource_types.go:200-202 | only SecretsProvided (True) and Ready change; Ready is consistent; ready exactly when sink and webhook were True |
| `GitHubSourceTypes.GitHubSourceStatus.MarkNoSecrets` | pkg/apis/sources/v1alpha1/githubsource_types.go:205-207 | only SecretsProvided (False, given reason and message) and Ready change; Ready is False and the source is not ready |
| `GitHubSourceTypes.GitHubSourceStatus.MarkSink` | pkg/apis/sources/v1alpha1/githubsource_types.go:210-218 | stores the URI; a URI marks SinkProvided True, nil marks it Unknown with "SinkEmpty" and "Sink has resolved to empty."; with nil, Ready is False exactly when secrets or webhook are False, and never True |
| `GitHubSourceTypes.GitHubSourceStatus.MarkNoSink` | pkg/apis/sources/v1alpha1/githubsource_types.go:221-223 | only SinkProvided (False, given reason and message) and Ready change; sink URI kept; the source is not ready |
| `GitHubSourceTypes.GitHubSourceStatus.MarkWebhookConfigured` | pkg/apis/sources/v1alpha1/githubsource_types.go:226-228 | only WebhookConfigured (True) and Ready change; ready exactly when secrets and sink were True |
| `GitHubSourceTypes.GitHubSourceStatus.MarkWebhookNotConfigured` | pkg/apis/sources/v1alpha1/githubsource_types.go:231-233 | only WebhookConfigured (False, given reason and message) and Ready change; the source is not ready |

## Left out

- The knative library `knative.dev/pkg/apis` is not part of this model. `Conditions` states the aggregation rule explicitly; which dependent's reason and message the library copies into Ready is not modelled, and the model's first-in-declared-order choice is its own.
- Conditions.MarkTrue, Conditions.MarkFalse and Conditions.MarkUnknown require the marked type to be a declared dependent; marking Ready directly or an undeclared type is treated as a programming error, and this file never does either.
- Conditions.InitializeConditions: added conditions carry an empty reason and message.
- Condition timestamps (`lastTransitionTime`) and severity: they depend on a wall clock.
- `fmt.Sprintf` message formatting: each message is taken already formatted.
- `ObservedGeneration` and the rest of the inherited duck status: no method here changes them.
- The Kubernetes scaffolding: interface assertions, `GetGroupVersionKind`, `GetConditionSet`, `GetStatus`, the `GitHubSource` and `GitHubSourceList` types, JSON tags, code-generation markers and validation annotations (enforced by the CRD schema, not by this code).
- `SecretValueFromSource` and the spec fields: plain data; secret retrieval is external I/O.
- The commented-out `MarkServiceDeployed` and `Deployed` condition, and the constant `GitHub`, which repeats the previous constant and is not in the condition set.
- Webhook registration, sink resolution and the reconciler loop: network and controller code outside this file.
- A `*apis.URL` is modelled as a string; only whether it is nil matters to these methods.
