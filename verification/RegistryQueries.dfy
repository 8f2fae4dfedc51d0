/** Queries for servers in terms of what clients and servers send: who is answered, and what is asked for. */
module RegistryQueries {
  import opened Prelude
  import opened Types
  import opened TimedMap
  import opened Registry

  /** Versions before 0.20. */
  predicate OldEngine(v: Version) {
    v.major == 0 && v.minor < 20
  }

  /** The client tells its version, which is not older than the configured minimum, and a build number that is not
      below the limit for its engine, unless that limit is 0. */
  predicate Served(cfg: Config, filter: Filter) {
    && filter.clver.Some? && VersionNumber(cfg.clientMinVersion) <= VersionNumber(filter.clver.value)
    && var limit := if OldEngine(filter.clver.value) then cfg.minOldEngineBuildnum else cfg.minEngineBuildnum;
       limit == 0 || (filter.buildnum.Some? && limit <= filter.buildnum.value)
  }

  lemma ServedIff(cfg: Config, query: ServerQuery)
    ensures IsQueryValid(cfg, query) <==> Served(cfg, query.filter)
  {
    if query.filter.clver.Some? {
      VersionLessIff(query.filter.clver.value, cfg.clientMinVersion);
    }
  }

  /** A server that registered with these details is what the query asks for. */
  predicate Asked(query: ServerQuery, msg: ServerAdd) {
    var filter := query.filter;
    && msg.region == query.region
    && (filter.gamedir.Some? ==> filter.gamedir.value == msg.gamedir)
    && (filter.map_.Some? ==> filter.map_.value == msg.map_)
    && (filter.protocol.Some? ==> filter.protocol.value == msg.protocol)
    && filter.flags <= filter.mask
    && (forall flag | flag in filter.mask :: HasFlag(msg, flag) <==> flag in filter.flags)
    && (filter.clver.Some? && OldEngine(filter.clver.value) ==> msg.protocol == 48)
  }

  lemma AskedIff(query: ServerQuery, msg: ServerAdd)
    requires query.filter.clver.Some?
    ensures Selected(query, NewServerInfo(msg)) <==> Asked(query, msg)
  {
    var filter := query.filter;
    filter.MatchesFlagByFlag(NewServerInfo(msg));
    forall flag | flag in filter.mask
      ensures filter.ContainsFlags({flag}) == Some(true) <==> flag in filter.flags
      ensures flag in NewServerInfo(msg).flags <==> HasFlag(msg, flag)
    {
      FilterFlagsIff(msg, flag);
    }
  }

  /** The filter does not exclude servers behind NAT. */
  predicate WantsNat(filter: Filter) {
    FfNat in filter.mask ==> FfNat in filter.flags
  }

  /** Everything that a packet with a query makes: nothing at all, or an answer to the sender with its own key. */
  lemma QueryActions(cfg: Config, s: State, e: Event, query: ServerQuery)
    requires e.packet == QueryServers(Some(query))
    ensures var actions := Step(cfg, s, e).1;
            var accepted := GameAccepted(e.from.ip, e.Now(0));
            if accepted !in actions then actions == []
            else if !Served(cfg, query.filter) then
              actions == [accepted, Listed(e.from, query.filter.key, {cfg.updateAddr})]
            else
              actions == [accepted, Listed(e.from, query.filter.key, Answer(s, query, e.Now(2)))]
                + if WantsNat(query.filter) then [Announced(e.from, NatServers(s, query, e.Now(2)))] else []
  {
    ServedIff(cfg, query);
    assert {FfNat} <= query.filter.mask <==> FfNat in query.filter.mask;
    assert {FfNat} <= query.filter.flags <==> FfNat in query.filter.flags;
  }

  /** Only decoded queries are ever answered. */
  lemma ListedIsAnswer(cfg: Config, s: State, e: Event, act: Action)
    requires act.Listed? && act in Step(cfg, s, e).1
    ensures e.from.ip !in s.blocklist && e.packet.QueryServers? && e.packet.query.Some?
    ensures var query := e.packet.query.value;
            && act.to == e.from && act.key == query.filter.key
            && (if Served(cfg, query.filter) then act.listed == Answer(s, query, e.Now(2)) else act.listed == {cfg.updateAddr})
  {
    if e.packet.QueryServers? && e.packet.query.Some? {
      ServedIff(cfg, e.packet.query.value);
    }
  }
}
