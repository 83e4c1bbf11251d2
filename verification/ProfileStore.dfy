/** The runtime store behind the profile handlers: rows updated in place, one transaction a method. */
module ProfileStore {
  import opened Bytes
  import Json
  import opened ProfileLog

  datatype PublishError = StaleVersion

  class RuntimeStore {
    const cfg: Config
    var profiles: map<AccountId, Profile>
    var changes: seq<Change>

    function Db(): Database
      reads this
    {
      Database(profiles, changes)
    }

    constructor (cfg: Config)
      ensures this.cfg == cfg && Db() == Database(map[], [])
    {
      this.cfg := cfg;
      profiles := map[];
      changes := [];
    }

    /** `loadOrCreateProfile`: select, else insert and select again; the row is mapped normalized. */
    method LoadOrCreateProfile(a: AccountId) returns (p: Profile)
      modifies this`profiles
      ensures Db() == Load(cfg, old(Db()), a)
      ensures a in profiles && p == View(cfg, profiles[a])
    {
      if a in profiles {
        return View(cfg, profiles[a]);
      }
      profiles := profiles[a := Profile(1, cfg.initial)];
      p := View(cfg, profiles[a]);
    }

    /** `upsertProfile`: insert at version 1, or replace and bump the version. */
    method UpsertProfile(a: AccountId, defaults: Json.Fields) returns (p: Profile)
      modifies this`profiles
      ensures profiles ==
              old(profiles)[a := Profile(if a in old(profiles) then old(profiles)[a].version + 1 else 1, defaults)]
      ensures p == View(cfg, profiles[a])
    {
      var version := 1;
      if a in profiles {
        version := profiles[a].version + 1;
      }
      profiles := profiles[a := Profile(version, defaults)];
      p := View(cfg, profiles[a]);
    }

    /** `insertProfileChange` */
    method InsertProfileChange(a: AccountId, suggestion: Option<SuggestionId>, version: nat, payload: Json.Fields)
      returns (c: Change)
      modifies this`changes
      ensures c == Change(a, suggestion, version, payload) && changes == old(changes) + [c]
    {
      c := Change(a, suggestion, version, payload);
      changes := changes + [c];
    }

    /** The transaction of the profile PATCH handler. */
    method PatchProfile(a: AccountId, patch: Json.Fields) returns (profile: Profile, change: Change)
      modifies this`profiles, this`changes
      ensures Db() == Apply(cfg, old(Db()), a, None, patch)
      ensures a in profiles && profile == View(cfg, profiles[a])
      ensures changes == old(changes) + [change] && change.version == profile.version
    {
      var before := LoadOrCreateProfile(a);
      var merged := Json.DeepMergeJsonObject(before.defaults, patch);
      profile := UpsertProfile(a, cfg.normalize(merged));
      change := InsertProfileChange(a, None, profile.version, patch);
    }

    /** The transaction of the suggestion publish handler; a stale suggestion rolls it back. */
    method PublishSuggestion(id: SuggestionId, suggestion: Suggestion) returns (r: Result<Change, PublishError>)
      modifies this`profiles, this`changes
      ensures r.Err? <==> Stale(cfg, old(Db()), suggestion)
      ensures r.Err? ==> Db() == old(Db())
      ensures r.Ok? ==> Db() == Apply(cfg, old(Db()), suggestion.account, Some(id), suggestion.patch)
      ensures r.Ok? ==> changes == old(changes) + [r.value]
    {
      var saved := profiles;
      var before := LoadOrCreateProfile(suggestion.account);
      if suggestion.basedOn.Some? && suggestion.basedOn.value != before.version {
        profiles := saved;
        return Err(StaleVersion);
      }
      var merged := Json.DeepMergeJsonObject(before.defaults, suggestion.patch);
      var profile := UpsertProfile(suggestion.account, cfg.normalize(merged));
      var change := InsertProfileChange(suggestion.account, Some(id), profile.version, suggestion.patch);
      r := Ok(change);
    }
  }
}
