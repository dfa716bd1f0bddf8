/**
 The secret-to-pipeline index of the operator: two maps of sets that stay exact
 inverses of each other under every update. A changed secret is looked up in one
 of them to find the pipelines that refer to it; the other tells which entries
 go when a pipeline does. Neither ever holds a pair that the other does not hold,
 after any single update or any number of them.
 */
module SecretIndex {
  import opened Prelude

  type Name = string

  type Sets = map<Name, set<Name>>

  function Get(m: Sets, k: Name): set<Name> {
    if k in m then m[k] else {}
  }

  /** A pair of the relation as the maps hold it from the pipeline's side. */
  predicate Refers(byPipeline: Sets, pipeline: Name, secret: Name) {
    secret in Get(byPipeline, pipeline)
  }

  /** The two maps hold the same pairs, and no secret is listed without a pipeline. */
  ghost predicate Inverse(bySecret: Sets, byPipeline: Sets) {
    && (forall p, s {:trigger Refers(byPipeline, p, s)} {:trigger Refers(bySecret, s, p)} ::
          Refers(byPipeline, p, s) <==> Refers(bySecret, s, p))
    && (forall s {:trigger bySecret[s]} :: s in bySecret ==> bySecret[s] != {})
  }

  class SecretPipelineIndex {
    var secretToPipelines: Sets
    var pipelineToSecrets: Sets

    ghost predicate Valid()
      reads this
    {
      Inverse(secretToPipelines, pipelineToSecrets)
    }

    constructor ()
      ensures Valid() && secretToPipelines == map[] && pipelineToSecrets == map[]
    {
      secretToPipelines, pipelineToSecrets := map[], map[];
    }

    method AddReference(pipeline: Name, secret: Name)
      requires Valid()
      modifies this
      ensures Valid()
      ensures forall p, s :: Refers(pipelineToSecrets, p, s) <==>
                             Refers(old(pipelineToSecrets), p, s) || (p == pipeline && s == secret)
    {
      secretToPipelines := secretToPipelines[secret := Get(secretToPipelines, secret) + {pipeline}];
      pipelineToSecrets := pipelineToSecrets[pipeline := Get(pipelineToSecrets, pipeline) + {secret}];
      InsertInverse(old(secretToPipelines), old(pipelineToSecrets), pipeline, secret);
    }

    method RemovePipeline(pipeline: Name)
      requires Valid()
      modifies this
      ensures Valid() && pipeline !in pipelineToSecrets
      ensures forall p, s :: Refers(pipelineToSecrets, p, s) <==> Refers(old(pipelineToSecrets), p, s) && p != pipeline
    {
      if pipeline in pipelineToSecrets {
        var secrets := pipelineToSecrets[pipeline];
        pipelineToSecrets := pipelineToSecrets - {pipeline};
        var left := secrets;
        while left != {}
          invariant left <= secrets
          invariant pipelineToSecrets == old(pipelineToSecrets) - {pipeline}
          invariant forall s, p {:trigger Refers(secretToPipelines, s, p)} :: Refers(secretToPipelines, s, p) <==>
            Refers(old(secretToPipelines), s, p) && (p == pipeline ==> s !in secrets || s in left)
          invariant forall s {:trigger secretToPipelines[s]} :: s in secretToPipelines ==> secretToPipelines[s] != {}
          decreases left
        {
          var secret :| secret in left;
          left := left - {secret};
          ghost var before := secretToPipelines;
          if secret in secretToPipelines {
            var pipelines := secretToPipelines[secret] - {pipeline};
            secretToPipelines := if pipelines == {} then secretToPipelines - {secret}
                                 else secretToPipelines[secret := pipelines];
          }
          PairTakenOut(before, secret, pipeline, secretToPipelines);
        }
        forall p, s ensures Refers(pipelineToSecrets, p, s) <==> Refers(secretToPipelines, s, p) {
          assert Refers(old(pipelineToSecrets), p, s) <==> Refers(old(secretToPipelines), s, p);
        }
      }
    }

    /** Afterwards the pipeline refers to exactly the given secrets, and nothing else has changed. */
    method UpdatePipelineIndex(pipeline: Name, secretRefs: seq<Name>)
      requires Valid()
      modifies this
      ensures Valid()
      ensures forall p, s :: Refers(pipelineToSecrets, p, s) <==>
                             if p == pipeline then s in secretRefs else Refers(old(pipelineToSecrets), p, s)
    {
      RemovePipeline(pipeline);
      for k := 0 to |secretRefs|
        invariant Valid()
        invariant forall p, s :: Refers(pipelineToSecrets, p, s) <==>
          if p == pipeline then s in secretRefs[..k] else Refers(old(pipelineToSecrets), p, s)
      {
        AddReference(pipeline, secretRefs[k]);
        assert secretRefs[..k + 1] == secretRefs[..k] + [secretRefs[k]];
      }
      assert secretRefs[..|secretRefs|] == secretRefs;
    }

    /** The pipelines to re-sync when a secret rotates: exactly those that refer to it. */
    method GetPipelinesForSecret(secret: Name) returns (r: Option<set<Name>>)
      requires Valid()
      ensures r.None? <==> forall p :: !Refers(pipelineToSecrets, p, secret)
      ensures r.Some? ==> forall p :: p in r.value <==> Refers(pipelineToSecrets, p, secret)
    {
      assert forall p :: Refers(pipelineToSecrets, p, secret) <==> Refers(secretToPipelines, secret, p);
      if secret in secretToPipelines {
        ghost var some :| some in secretToPipelines[secret];
        assert Refers(secretToPipelines, secret, some);
        r := Some(secretToPipelines[secret]);
      } else {
        r := None;
      }
    }
  }

  lemma InsertInverse(bySecret: Sets, byPipeline: Sets, pipeline: Name, secret: Name)
    requires Inverse(bySecret, byPipeline)
    ensures
      var s', p' := bySecret[secret := Get(bySecret, secret) + {pipeline}],
                    byPipeline[pipeline := Get(byPipeline, pipeline) + {secret}];
      && Inverse(s', p')
      && forall p, s :: Refers(p', p, s) <==> Refers(byPipeline, p, s) || (p == pipeline && s == secret)
  {
    var s', p' := bySecret[secret := Get(bySecret, secret) + {pipeline}],
                  byPipeline[pipeline := Get(byPipeline, pipeline) + {secret}];
    forall p, s ensures Refers(p', p, s) <==> Refers(s', s, p) {
      assert Refers(byPipeline, p, s) <==> Refers(bySecret, s, p);
    }
  }

  /** Taking the pipeline out of one secret's set, and the set with it if it ends up empty, takes out that pair alone. */
  lemma PairTakenOut(before: Sets, secret: Name, pipeline: Name, after: Sets)
    requires forall s {:trigger before[s]} :: s in before ==> before[s] != {}
    requires after == if secret !in before then before
                      else if before[secret] - {pipeline} == {} then before - {secret}
                      else before[secret := before[secret] - {pipeline}]
    ensures forall s, p {:trigger Refers(after, s, p)} ::
              Refers(after, s, p) <==> Refers(before, s, p) && !(s == secret && p == pipeline)
    ensures forall s {:trigger after[s]} :: s in after ==> after[s] != {}
  {
    forall s, p ensures Refers(after, s, p) <==> Refers(before, s, p) && !(s == secret && p == pipeline) {
      if s == secret && secret in before {
        assert p in before[secret] - {pipeline} <==> p in before[secret] && p != pipeline;
      }
    }
  }
}
