/**
  The GitHub event source's API types: the CloudEvent type and source
  builders, the condition catalog of the source, and its status record, whose
  methods mark the catalog's conditions in place.
*/
module GitHubSourceTypes {
  import opened Wrappers
  import opened Conditions

  /** Prefix of every CloudEvent type emitted for a GitHub event. */
  const GitHubEventTypePrefix: string := "dev.knative.source.github"

  /** Prefix of every CloudEvent source emitted for a GitHub repository. */
  const GitHubEventSourcePrefix: string := "https://github.com"

  /** The CloudEvent "type" attribute for the GitHub webhook event name `ghEventType`. */
  function GitHubEventType(ghEventType: string): (r: string)
    ensures |r| == |GitHubEventTypePrefix| + 1 + |ghEventType|
    ensures r[..|GitHubEventTypePrefix|] == GitHubEventTypePrefix && r[|GitHubEventTypePrefix|] == '.'
    ensures r[|GitHubEventTypePrefix| + 1..] == ghEventType
  {
    GitHubEventTypePrefix + "." + ghEventType
  }

  /** The CloudEvent "source" attribute for the owner (and repository) `ownerAndRepo`. */
  function GitHubEventSource(ownerAndRepo: string): (r: string)
    ensures |r| == |GitHubEventSourcePrefix| + 1 + |ownerAndRepo|
    ensures r[..|GitHubEventSourcePrefix|] == GitHubEventSourcePrefix && r[|GitHubEventSourcePrefix|] == '/'
    ensures r[|GitHubEventSourcePrefix| + 1..] == ownerAndRepo
  {
    GitHubEventSourcePrefix + "/" + ownerAndRepo
  }

  /** The text after `prefix` and one `sep`, when `s` starts with both. */
  function StripPrefix(s: string, prefix: string, sep: char): Option<string> {
    if |s| > |prefix| && s[..|prefix|] == prefix && s[|prefix|] == sep then Some(s[|prefix| + 1..]) else None
  }

  /** GitHubEventType is undone by stripping its prefix, and only its results strip. */
  lemma EventTypeRoundTrip(ghEventType: string, ceType: string)
    ensures StripPrefix(GitHubEventType(ghEventType), GitHubEventTypePrefix, '.') == Some(ghEventType)
    ensures StripPrefix(ceType, GitHubEventTypePrefix, '.') == Some(ghEventType) ==> GitHubEventType(ghEventType) == ceType
  {
  }

  /** GitHubEventSource is undone by stripping its prefix, and only its results strip. */
  lemma EventSourceRoundTrip(ownerAndRepo: string, ceSource: string)
    ensures StripPrefix(GitHubEventSource(ownerAndRepo), GitHubEventSourcePrefix, '/') == Some(ownerAndRepo)
    ensures StripPrefix(ceSource, GitHubEventSourcePrefix, '/') == Some(ownerAndRepo) ==> GitHubEventSource(ownerAndRepo) == ceSource
  {
  }

  /** Distinct GitHub event names give distinct CloudEvent types. */
  lemma GitHubEventTypeInjective(a: string, b: string)
    ensures GitHubEventType(a) == GitHubEventType(b) ==> a == b
  {
    EventTypeRoundTrip(a, GitHubEventType(b));
    EventTypeRoundTrip(b, GitHubEventType(b));
  }

  /** Distinct owners (or repositories) give distinct CloudEvent sources. */
  lemma GitHubEventSourceInjective(a: string, b: string)
    ensures GitHubEventSource(a) == GitHubEventSource(b) ==> a == b
  {
    EventSourceRoundTrip(a, GitHubEventSource(b));
    EventSourceRoundTrip(b, GitHubEventSource(b));
  }

  const GitHubSourceConditionReady: ConditionType := ConditionReady
  const GitHubSourceConditionSecretsProvided: ConditionType := "SecretsProvided"
  const GitHubSourceConditionSinkProvided: ConditionType := "SinkProvided"
  const GitHubSourceConditionWebhookConfigured: ConditionType := "WebhookConfigured"

  /** The source's catalog: Ready aggregates secrets, sink and webhook. */
  const GitHubSourceCondSet: ConditionSet := NewLivingConditionSet([
    GitHubSourceConditionSecretsProvided,
    GitHubSourceConditionSinkProvided,
    GitHubSourceConditionWebhookConfigured])

  /** For this catalog, "consistent" means Ready is True exactly when all three dependents are. */
  lemma GitHubReadyIffAllProvided(conds: ConditionMap)
    ensures Consistent(GitHubSourceCondSet, conds) ==>
              (IsHappy(GitHubSourceCondSet, conds) <==>
                 && StatusOf(conds, GitHubSourceConditionSecretsProvided) == True
                 && StatusOf(conds, GitHubSourceConditionSinkProvided) == True
                 && StatusOf(conds, GitHubSourceConditionWebhookConfigured) == True)
  {
    var deps := GitHubSourceCondSet.dependents;
    assert deps[0] == GitHubSourceConditionSecretsProvided;
    assert deps[1] == GitHubSourceConditionSinkProvided;
    assert deps[2] == GitHubSourceConditionWebhookConfigured;
  }

  /** A sink URI; nil is Option.None. */
  type URL = string

  /** The observed state of a GitHub source. */
  class GitHubSourceStatus {
    /** The conditions of the record, keyed by condition type. */
    var conditions: ConditionMap
    /** The sink URI the source sends to, if one has resolved. */
    var sinkURI: Option<URL>
    /** The ID of the webhook registered with GitHub. */
    var webhookIDKey: string

    /** The zero status record: no conditions, no sink, no webhook. */
    constructor ()
      ensures conditions == map[] && sinkURI == None && webhookIDKey == ""
    {
      conditions := map[];
      sinkURI := None;
      webhookIDKey := "";
    }

    /** Ready agrees with the three dependents. */
    ghost predicate ReadyConsistent()
      reads this
    {
      Consistent(GitHubSourceCondSet, conditions)
    }

    /** The condition currently recorded for `t`, or None. */
    function GetCondition(t: ConditionType): (c: Option<Condition>)
      reads this
      ensures c.Some? <==> t in conditions
      ensures c.Some? ==> c.value == conditions[t]
    {
      Conditions.GetCondition(conditions, t)
    }

    /** Whether the source is ready overall. */
    function IsReady(): (b: bool)
      reads this
      ensures b ==> GitHubSourceConditionReady in conditions
      ensures ReadyConsistent() ==>
                (b <==> && StatusOf(conditions, GitHubSourceConditionSecretsProvided) == True
                        && StatusOf(conditions, GitHubSourceConditionSinkProvided) == True
                        && StatusOf(conditions, GitHubSourceConditionWebhookConfigured) == True)
    {
      GitHubReadyIffAllProvided(conditions);
      IsHappy(GitHubSourceCondSet, conditions)
    }

    /** Give Ready and every dependent not yet present the status Unknown; keep the rest. */
    method InitializeConditions()
      modifies this
      ensures conditions.Keys == old(conditions).Keys + {GitHubSourceConditionReady,
                GitHubSourceConditionSecretsProvided, GitHubSourceConditionSinkProvided,
                GitHubSourceConditionWebhookConfigured}
      ensures forall t :: t in old(conditions) ==> conditions[t] == old(conditions)[t]
      ensures forall t :: t in conditions && t !in old(conditions) ==> conditions[t] == UnknownCondition
      ensures old(conditions) == map[] || old(ReadyConsistent()) ==> ReadyConsistent()
      ensures sinkURI == old(sinkURI) && webhookIDKey == old(webhookIDKey)
    {
      if conditions == map[] || ReadyConsistent() {
        InitializeConsistent(GitHubSourceCondSet, conditions);
      }
      assert DependentSet(GitHubSourceCondSet) == {GitHubSourceConditionSecretsProvided,
        GitHubSourceConditionSinkProvided, GitHubSourceConditionWebhookConfigured};
      conditions := Conditions.InitializeConditions(GitHubSourceCondSet, conditions);
    }

    /** Record that the secrets are valid. */
    method MarkSecrets()
      modifies this
      ensures OnlyMarked(GitHubSourceCondSet, old(conditions), conditions, GitHubSourceConditionSecretsProvided, TrueCondition)
      ensures ReadyConsistent()
      ensures IsReady() <==> && StatusOf(old(conditions), GitHubSourceConditionSinkProvided) == True
                             && StatusOf(old(conditions), GitHubSourceConditionWebhookConfigured) == True
      ensures sinkURI == old(sinkURI) && webhookIDKey == old(webhookIDKey)
    {
      conditions := MarkTrue(GitHubSourceCondSet, conditions, GitHubSourceConditionSecretsProvided);
      GitHubReadyIffAllProvided(conditions);
    }

    /** Record that the secrets are missing or invalid, with a reason and a formatted message. */
    method MarkNoSecrets(reason: string, message: string)
      modifies this
      ensures OnlyMarked(GitHubSourceCondSet, old(conditions), conditions, GitHubSourceConditionSecretsProvided,
                Condition(False, reason, message))
      ensures ReadyConsistent()
      ensures conditions[GitHubSourceConditionReady].status == False && !IsReady()
      ensures sinkURI == old(sinkURI) && webhookIDKey == old(webhookIDKey)
    {
      conditions := MarkFalse(GitHubSourceCondSet, conditions, GitHubSourceConditionSecretsProvided, reason, message);
    }

    /**
      Store the resolved sink URI. A URI marks the sink True; none marks it
      Unknown with reason "SinkEmpty", which leaves Ready False if secrets or
      webhook are False.
    */
    method MarkSink(uri: Option<URL>)
      modifies this
      ensures sinkURI == uri && webhookIDKey == old(webhookIDKey)
      ensures uri.Some? ==> OnlyMarked(GitHubSourceCondSet, old(conditions), conditions,
                GitHubSourceConditionSinkProvided, TrueCondition)
      ensures uri.None? ==> OnlyMarked(GitHubSourceCondSet, old(conditions), conditions,
                GitHubSourceConditionSinkProvided, Condition(Unknown, "SinkEmpty", "Sink has resolved to empty."))
      ensures ReadyConsistent()
      ensures uri.Some? ==> (IsReady() <==> && StatusOf(old(conditions), GitHubSourceConditionSecretsProvided) == True
                                            && StatusOf(old(conditions), GitHubSourceConditionWebhookConfigured) == True)
      ensures uri.None? ==> !IsReady()
      ensures uri.None? ==>
                (conditions[GitHubSourceConditionReady].status == False <==>
                   StatusOf(old(conditions), GitHubSourceConditionSecretsProvided) == False ||
                   StatusOf(old(conditions), GitHubSourceConditionWebhookConfigured) == False)
    {
      sinkURI := uri;
      if uri.Some? {
        conditions := MarkTrue(GitHubSourceCondSet, conditions, GitHubSourceConditionSinkProvided);
        GitHubReadyIffAllProvided(conditions);
      } else {
        ghost var before := conditions;
        conditions := MarkUnknown(GitHubSourceCondSet, conditions, GitHubSourceConditionSinkProvided,
          "SinkEmpty", "Sink has resolved to empty.");
        ghost var deps := GitHubSourceCondSet.dependents;
        assert deps[0] == GitHubSourceConditionSecretsProvided && deps[2] == GitHubSourceConditionWebhookConfigured;
        assert deps[1] == GitHubSourceConditionSinkProvided;
      }
    }

    /** Record that no sink could be resolved, with a reason and a formatted message. */
    method MarkNoSink(reason: string, message: string)
      modifies this
      ensures OnlyMarked(GitHubSourceCondSet, old(conditions), conditions, GitHubSourceConditionSinkProvided,
                Condition(False, reason, message))
      ensures ReadyConsistent()
      ensures conditions[GitHubSourceConditionReady].status == False && !IsReady()
      ensures sinkURI == old(sinkURI) && webhookIDKey == old(webhookIDKey)
    {
      conditions := MarkFalse(GitHubSourceCondSet, conditions, GitHubSourceConditionSinkProvided, reason, message);
    }

    /** Record that the webhook is registered with GitHub. */
    method MarkWebhookConfigured()
      modifies this
      ensures OnlyMarked(GitHubSourceCondSet, old(conditions), conditions, GitHubSourceConditionWebhookConfigured, TrueCondition)
      ensures ReadyConsistent()
      ensures IsReady() <==> && StatusOf(old(conditions), GitHubSourceConditionSecretsProvided) == True
                             && StatusOf(old(conditions), GitHubSourceConditionSinkProvided) == True
      ensures sinkURI == old(sinkURI) && webhookIDKey == old(webhookIDKey)
    {
      conditions := MarkTrue(GitHubSourceCondSet, conditions, GitHubSourceConditionWebhookConfigured);
      GitHubReadyIffAllProvided(conditions);
    }

    /** Record that the webhook is not registered, with a reason and a formatted message. */
    method MarkWebhookNotConfigured(reason: string, message: string)
      modifies this
      ensures OnlyMarked(GitHubSourceCondSet, old(conditions), conditions, GitHubSourceConditionWebhookConfigured,
                Condition(False, reason, message))
      ensures ReadyConsistent()
      ensures conditions[GitHubSourceConditionReady].status == False && !IsReady()
      ensures sinkURI == old(sinkURI) && webhookIDKey == old(webhookIDKey)
    {
      conditions := MarkFalse(GitHubSourceCondSet, conditions, GitHubSourceConditionWebhookConfigured, reason, message);
    }
  }
}
