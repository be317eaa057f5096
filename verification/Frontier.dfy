/** The crawl frontier (crawler/frontier/frontier.go); the clock is an argument. */
module Frontier {
  import opened FrontierState

  class Scheduler {
    const politeness: Politeness
    var seen: set<nat>
    var front: seq<seq<URL>>
    var hosts: Hosts
    var ready: seq<string>
    var pending: int
    ghost var admitted: seq<URL>
    ghost var handed: seq<URL>
    ghost var due: map<string, int>
    ghost var out: set<string>

    constructor (politeness: Politeness)
      ensures Valid() && admitted == [] && handed == [] && hosts == map[] && due == map[] && out == {} && this.politeness == politeness
      ensures Ranked(hosts, ready)
    {
      this.politeness := politeness;
      seen, hosts, ready, pending, admitted, handed, due, out := {}, map[], [], 0, [], [], map[], {};
      front := seq(PRIORITIES, _ => []);
    }

    /** Between calls the front queues are drained, every admitted URL is queued or was handed out, each
        host in the order of admission, and each fingerprint was admitted once. `due` is when each host may be fetched after its last
        Done, and `out` the hosts with a URL checked out. */
    ghost predicate Valid()
      reads this
    {
      Books(hosts, ready, front, admitted, handed, pending, seen, due, out)
    }

    /** Admits u unless it has no host or its fingerprint was admitted before. */
    method Add(u: URL, now: int) returns (ok: bool)
      requires Valid()
      modifies this
      ensures Valid() && handed == old(handed) && due == old(due) && out == old(out)
      ensures !ok ==> hosts == old(hosts) && ready == old(ready)
      ensures ok ==> Joined(old(hosts), hosts, u, now)
      ensures old(Ranked(hosts, ready) && !Raises(hosts, u)) ==> Ranked(hosts, ready)
      ensures ok <==> u.host != "" && u.fingerprint !in old(seen)
      ensures admitted == (if ok then old(admitted) + [u] else old(admitted)) && pending == old(pending) + (if ok then 1 else 0)
      ensures seen == if u.host == "" then old(seen) else old(seen) + {u.fingerprint}
    {
      if u.host == "" {
        return false;
      }
      ok, hosts, ready, front, admitted, pending, seen := Admit(hosts, ready, front, admitted, handed, pending, seen, due, out, u, now);
    }

    /** The next URL whose host is idle and ready, from the earliest such host. */
    method Next(now: int) returns (u: URL, ok: bool)
      requires Valid()
      modifies this
      ensures Valid() && InOrder(hosts, admitted, handed) && admitted == old(admitted) && seen == old(seen) && due == old(due)
      ensures ok <==> AnyEligible(old(hosts), now)
      ensures !ok ==> hosts == old(hosts) && handed == old(handed) && pending == old(pending) && out == old(out)
      ensures old(Ranked(hosts, ready)) ==> Ranked(hosts, ready) && (ok ==> Preferred(old(hosts), u.host))
      ensures ok ==>
        && Taken(old(hosts), hosts, u, now)
        && handed == old(handed) + [u] && pending == old(pending) - 1 && DistinctPrints(handed)
        && u.host !in old(out) && out == old(out) + {u.host} && (u.host in due ==> due[u.host] <= now)
    {
      u, ok, hosts, ready, front, handed, pending, out := HandTop(hosts, ready, front, admitted, handed, pending, seen, due, out, now);
    }

    /** A finished fetch frees its host and sets when it may be fetched again. An unknown host is
        ignored; an idle host with work may not be reported. */
    method Done(u: URL, fetchDuration: int, now: int)
      requires Valid() && !Idle(hosts, u.host)
      modifies this
      ensures Valid() && admitted == old(admitted) && handed == old(handed) && seen == old(seen) && pending == old(pending)
      ensures u.host !in old(hosts) ==> hosts == old(hosts) && due == old(due) && out == old(out)
      ensures u.host in old(hosts) ==>
        && hosts == old(hosts)[u.host := old(hosts)[u.host].(busy := false,
                   readyAt := now + Gap(politeness, fetchDuration, old(hosts)[u.host].crawlDelay))]
        && due == old(due)[u.host := now + Gap(politeness, fetchDuration, old(hosts)[u.host].crawlDelay)]
        && out == old(out) - {u.host}
      ensures old(Ranked(hosts, ready)) ==> Ranked(hosts, ready)
    {
      if u.host !in hosts {
        return;
      }
      var gap := Gap(politeness, fetchDuration, hosts[u.host].crawlDelay);
      hosts, ready, due, out := Free(hosts, ready, front, admitted, handed, pending, seen, due, out, u.host, now + gap);
    }

    /** Raises the politeness floor of a host. */
    method SetCrawlDelay(host: string, d: int, now: int)
      requires Valid()
      modifies this
      ensures Valid() && admitted == old(admitted) && handed == old(handed) && seen == old(seen) && pending == old(pending)
      ensures due == old(due) && out == old(out)
      ensures host in old(hosts) ==> hosts == old(hosts)[host := old(hosts)[host].(crawlDelay := d)]
      ensures host !in old(hosts) ==> hosts == old(hosts)[host := Host(now, d, 0, false, [])]
      ensures old(Ranked(hosts, ready)) ==> Ranked(hosts, ready)
    {
      if Ranked(hosts, ready) { RankKept(hosts, hosts[host := HostOf(hosts, host, now).(crawlDelay := d)], ready); }
      DelayBooks(hosts, ready, front, admitted, handed, pending, seen, due, out, host, d, now);
      hosts := hosts[host := HostOf(hosts, host, now).(crawlDelay := d)];
    }
  }
}
