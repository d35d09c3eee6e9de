/** What the client takes from a bundle: exactly the readable YAML files that the manifest lists. */
module Bundles {
  import opened Prelude
  import opened Content
  import opened ClientModel
  import opened ClientProofs

  // ---- File names ------------------------------------------------------------------

  /** The same letter, whatever its case. */
  predicate SameLetter(c: char, lower: char) {
    c == lower || ('a' <= lower <= 'z' && c as int + 32 == lower as int)
  }

  predicate EndsIn(name: string, suffix: string) {
    && |suffix| <= |name|
    && forall i :: 0 <= i < |suffix| ==> SameLetter(name[|name| - |suffix| + i], suffix[i])
  }

  predicate NamedYaml(name: string) { EndsIn(name, ".yaml") || EndsIn(name, ".yml") }

  lemma {:induction false} ExtensionIsSuffix(name: string)
    ensures var e := Extension(name); |e| <= |name| && name[|name| - |e|..] == e
  {
    if name != "" && name[|name| - 1] != '/' && name[|name| - 1] != '.' {
      var front := name[..|name| - 1];
      ExtensionIsSuffix(front);
      assert name == front + [name[|name| - 1]];
    }
  }

  predicate IsPlain(s: string) { forall i :: 0 <= i < |s| ==> s[i] != '.' && s[i] != '/' }

  lemma {:induction false} DotStarts(stem: string, rest: string)
    requires IsPlain(rest)
    ensures Extension(stem + "." + rest) == "." + rest
    decreases |rest|
  {
    var name := stem + "." + rest;
    if rest == "" {
      assert name == stem + ".";
    } else {
      var front := rest[..|rest| - 1];
      assert name[..|name| - 1] == stem + "." + front && name[|name| - 1] == rest[|rest| - 1];
      DotStarts(stem, front);
      assert "." + rest == "." + front + [rest[|rest| - 1]];
    }
  }

  lemma LowerIff(c: char, lower: char)
    requires lower == '.' || 'a' <= lower <= 'z'
    ensures Lower(c) == lower <==> SameLetter(c, lower)
  {
  }

  /** A name has one of the two extensions exactly if it ends in it, in whatever case. */
  lemma ExtensionIff(name: string, suffix: string)
    requires suffix == ".yaml" || suffix == ".yml"
    ensures ToLower(Extension(name)) == suffix <==> EndsIn(name, suffix)
  {
    var e := Extension(name);
    if ToLower(e) == suffix {
      ExtensionIsSuffix(name);
      forall i | 0 <= i < |suffix| ensures SameLetter(name[|name| - |suffix| + i], suffix[i]) {
        assert name[|name| - |suffix| + i] == e[i] && ToLower(e)[i] == suffix[i];
        LowerIff(e[i], suffix[i]);
      }
    }
    if EndsIn(name, suffix) { SuffixIsExtension(name, suffix); }
  }

  lemma SuffixIsExtension(name: string, suffix: string)
    requires (suffix == ".yaml" || suffix == ".yml") && EndsIn(name, suffix)
    ensures ToLower(Extension(name)) == suffix
  {
    var n := |name| - |suffix|;
    var stem, rest := name[..n], name[n + 1..];
    assert SameLetter(name[n], suffix[0]) && name[n] == '.';
    forall i | 0 <= i < |rest| ensures rest[i] != '.' && rest[i] != '/' {
      assert SameLetter(name[n + (i + 1)], suffix[i + 1]);
    }
    assert name == stem + "." + rest;
    DotStarts(stem, rest);
    var e := "." + rest;
    forall i | 0 <= i < |suffix| ensures Lower(e[i]) == suffix[i] {
      assert e[i] == name[n + i];
      LowerIff(e[i], suffix[i]);
    }
    assert ToLower(e) == suffix;
  }

  lemma IsYamlIff(name: string)
    ensures IsYaml(name) <==> NamedYaml(name)
  {
    ExtensionIff(name, ".yaml");
    ExtensionIff(name, ".yml");
  }

  // ---- Entries ---------------------------------------------------------------------

  ghost predicate UniqueDigests(listings: seq<Listing>) {
    forall i, j :: 0 <= i < j < |listings| ==> listings[i].digest != listings[j].digest
  }

  /** The entry is a readable file with a YAML name and the listed content, which parses. */
  predicate Carries(e: Entry, digest: Digest) {
    e.Regular? && NamedYaml(e.name) && Sha256(e.content) == digest && e.content.Yaml?
  }

  predicate InArchive(entries: seq<Entry>, digest: Digest) { exists e :: e in entries && Carries(e, digest) }

  lemma {:induction false} IndexIff(listings: seq<Listing>, l: Listing)
    requires UniqueDigests(listings) && l in listings
    ensures l.digest in DigestIndex(listings) && DigestIndex(listings)[l.digest] == l.id
  {
    var front, last := listings[..|listings| - 1], listings[|listings| - 1];
    assert listings == front + [last];
    if l != last {
      IndexIff(front, l);
      var i :| 0 <= i < |front| && front[i] == l;
      assert listings[i].digest != listings[|listings| - 1].digest;
    }
  }

  lemma UsableIff(e: Entry, listings: seq<Listing>, l: Listing)
    requires UniqueIds(listings) && UniqueDigests(listings) && l in listings
    ensures var index := DigestIndex(listings);
      (Usable(e, index) && index[Sha256(e.content)] == l.id) <==> Carries(e, l.digest)
  {
    IndexIff(listings, l);
    IndexIsListed(listings);
    if e.Regular? { IsYamlIff(e.name); }
    if Usable(e, DigestIndex(listings)) && DigestIndex(listings)[Sha256(e.content)] == l.id {
      SameListing(listings, Listing(l.id, Sha256(e.content)), l);
    }
  }

  /** Of unique listings exactly those are unpacked that some file of the archive carries. */
  lemma {:induction false} UnpackIff(entries: seq<Entry>, listings: seq<Listing>, l: Listing)
    requires UniqueIds(listings) && UniqueDigests(listings) && l in listings
    ensures l.id in Unpack(entries, DigestIndex(listings)) <==> InArchive(entries, l.digest)
  {
    if entries != [] {
      var front, e := entries[..|entries| - 1], entries[|entries| - 1];
      assert entries == front + [e];
      UnpackIff(front, listings, l);
      UsableIff(e, listings, l);
    }
  }

  /** The bundle that the manifest names was downloaded whole. */
  predicate GoodBundle(net: Network, m: Manifest) {
    && m.bundle.Some? && net.bundle.Some? && m.bundle == Some(Sha256(net.bundle.value))
    && net.bundle.value.TarGz? && !net.bundle.value.truncated
  }

  /** A listing is seeded exactly on a first sync, from a bundle that came whole and carries it. */
  lemma SeedIff(st: State, net: Network, m: Manifest, l: Listing)
    requires UniqueIds(m.listings) && UniqueDigests(m.listings) && l in m.listings
    ensures l.id in Seed(st, net, m) <==>
              !st.bundleFetched && st.deployments == map[] && GoodBundle(net, m) &&
                InArchive(net.bundle.value.entries, l.digest)
  {
    if net.bundle.Some? && net.bundle.value.TarGz? { UnpackIff(net.bundle.value.entries, m.listings, l); }
  }

  /** The bundle counts as fetched from the first sync on that had nothing to fetch or got it whole. */
  lemma BundleFetchedIff(st: State, r: Response, net: Network)
    requires Accepts(st, r)
    ensures Polled(st, r, net).bundleFetched <==>
              st.bundleFetched || (st.deployments == map[] && (r.manifest.bundle.None? || GoodBundle(net, r.manifest)))
  {
  }
}
