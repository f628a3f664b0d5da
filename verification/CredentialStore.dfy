/**
 Installing, rotating and replacing the node credentials, one file operation at a
 time. The trace keeps every state the files pass through, so a claim about all its
 moments is a claim about a stop at any point.
 */
module CredentialStore {
  import opened Basics
  import opened CredentialFiles

  const KINDS := [PrivateKey, ClientCertificate, CaCertificate]

  function BytesOf(m: Credential, k: Kind): seq<Byte> {
    match k
    case PrivateKey => m.privateKey
    case ClientCertificate => m.clientCertificate
    case CaCertificate => m.caCertificate
  }

  /** What the constructor of the material enforces. */
  predicate Acceptable(m: Credential) {
    forall k: Kind :: 0 < |BytesOf(m, k)| <= MAX_MATERIAL_BYTES
  }

  ghost predicate GensBelow(d: Disk, g: Gen) {
    forall n :: n in d.entries && Own(n) ==> n.gen < g
  }

  // ---------- what each file operation keeps ----------

  ghost predicate Good(d: Disk, v: View, g: Gen) {
    Tidy(d) && Shows(d, v) && GensBelow(d, g) && (v.Holding? ==> v.gen < g)
  }

  /** A name whose file the view does not rest on. */
  predicate Spare(v: View, n: Name) {
    n != Current && (v.Holding? && Own(n) ==> n.gen != v.gen)
  }

  lemma CreateKeeps(d: Disk, v: View, g: Gen, n: Name)
    requires Good(d, v, g) && Own(n) && n !in d.entries && n.gen < g
    ensures Good(Created(d, n), v, g)
  {
  }

  lemma FillKeeps(d: Disk, v: View, g: Gen, n: Name, c: Content)
    requires Good(d, v, g) && n in d.entries && Own(n) && Spare(v, n)
    ensures Good(Filled(d, n, c), v, g)
  {
  }

  lemma UnlinkKeeps(d: Disk, v: View, g: Gen, n: Name)
    requires Good(d, v, g) && Spare(v, n)
    ensures Good(Unlinked(d, n), v, g)
  {
  }

  lemma LinkNextKeeps(d: Disk, v: View, g: Gen, new': Gen)
    requires Good(d, v, g) && v.Holding? && Next !in d.entries && Manifest(new') in d.entries
    requires v.inode < d.entries[Manifest(new')]
    ensures Good(Linked(d, Manifest(new'), Next), v, g)
  {
  }

  lemma LinkCommits(d: Disk, g: Gen, new': Gen, x: Credential)
    requires Good(d, Nothing, g) && new' < g && Manifest(new') in d.entries && Whole(d, new', d.entries[Manifest(new')], x)
    ensures Good(Linked(d, Manifest(new'), Current), Holding(new', d.entries[Manifest(new')], x), g)
  {
  }

  lemma RenameCommits(d: Disk, v: View, g: Gen, new': Gen, x: Credential)
    requires Good(d, v, g) && v.Holding? && v.gen < new' < g
    requires Next in d.entries && Manifest(new') in d.entries && d.entries[Next] == d.entries[Manifest(new')]
    requires Whole(d, new', d.entries[Next], x)
    ensures Good(Renamed(d, Next, Current), Holding(new', d.entries[Next], x), g)
    ensures Later(v, Holding(new', d.entries[Next], x))
  {
    hide Describes;
  }

  lemma MarkKeeps(d: Disk, v: View, g: Gen)
    requires Good(d, v, g)
    ensures Good(d.(marker := true), v, g)
  {
  }

  // ---------- writing a generation ----------

  /** The files written so far and what the manifest will say of them. */
  ghost predicate Written(d: Disk, files: map<Kind, Entry>, g: Gen, m: Credential) {
    forall k :: k in files ==> files[k] == Entry(Material(k, g), BytesOf(m, k)) && Intact(d, Material(k, g), BytesOf(m, k))
  }

  lemma OneFileMore(d: Disk, files: map<Kind, Entry>, g: Gen, m: Credential, k: Kind)
    requires Tidy(d) && Written(d, files, g, m) && k !in files && Material(k, g) !in d.entries && Acceptable(m)
    ensures var n := Material(k, g);
            Written(Filled(Created(d, n), n, Raw(BytesOf(m, k))), files[k := Entry(n, BytesOf(m, k))], g, m)
  {
  }

  lemma ManifestMakesWhole(d: Disk, files: map<Kind, Entry>, g: Gen, m: Credential)
    requires Tidy(d) && Written(d, files, g, m) && (forall k: Kind :: k in files) && Manifest(g) !in d.entries
    ensures var n := Manifest(g);
            Whole(Filled(Created(d, n), n, Document(Doc(m.identity, files))), g, d.next, m)
  {
    var n := Manifest(g);
    var e := Filled(Created(d, n), n, Document(Doc(m.identity, files)));
    forall k: Kind
      ensures k in files && files[k].name == Material(k, g) && Intact(e, Material(k, g), files[k].content)
    {
      assert Intact(d, Material(k, g), BytesOf(m, k));
    }
  }

  class CredentialStore {
    var disk: Disk
    var nextGen: Gen
    /** Every unlink that cleans up after a failure succeeds. */
    const tidies: bool
    /** What a reader at rest is shown; every state passed through; whether nothing else changed the files. */
    ghost var view: View
    ghost var trace: seq<Moment>
    ghost var intact: bool

    ghost predicate Valid()
      reads this
    {
      && trace != [] && trace[|trace| - 1] == Moment(disk, view)
      && EvidenceStays(trace)
      && (intact ==> TraceOk(trace) && AllBelow(trace, nextGen) && Good(disk, view, nextGen))
    }

    constructor (tidies: bool)
      ensures Valid() && intact && view == Nothing && !disk.marker && this.tidies == tidies
    {
      this.tidies := tidies;
      disk, nextGen, view, intact := Disk(map[], map[], 0, false), 0, Nothing, true;
      trace := [Moment(Disk(map[], map[], 0, false), Nothing)];
    }

    /** A process that starts on the files as an earlier one left them at any moment. */
    constructor AfterStop(s: CredentialStore, ghost k: nat, found: Disk)
      requires s.Valid() && k < |s.trace| && found == s.trace[k].disk
      ensures Valid() && disk == found && trace == s.trace[..k + 1] && view == s.trace[k].view && intact == s.intact
    {
      disk, nextGen, tidies := found, s.nextGen, s.tidies;
      view, intact, trace := s.trace[k].view, s.intact, s.trace[..k + 1];
      StopAnywhere(s.trace, k, s.nextGen, s.intact);
    }

    /** The next state of the files. */
    method Move(d: Disk, ghost v: View)
      requires Valid() && (disk.marker ==> d.marker)
      requires intact ==> Good(d, v, nextGen) && Later(view, v)
      modifies this`disk, this`view, this`trace
      ensures Valid() && disk == d && view == v && trace == old(trace) + [Moment(d, v)]
    {
      hide Good, TraceOk, AllBelow;
      if intact {
        MovesOn(trace, disk, view, d, v, nextGen);
      }
      disk, view, trace := d, v, trace + [Moment(d, v)];
    }

    /** Outside damage to the directory, up to its loss; the evidence is in another place. */
    method Damage(entries: map<Name, Inode>, contents: map<Inode, Content>)
      requires Valid()
      modifies this
      ensures Valid() && !intact && disk.marker == old(disk.marker)
      ensures disk.entries == entries && disk.contents == contents && old(trace) <= trace
    {
      intact := false;
      Move(disk.(entries := entries, contents := contents), view);
    }

    method WriteFile(n: Name, c: Content, reliable: bool) returns (ok: bool)
      requires Valid() && Own(n) && (intact ==> Spare(view, n)) && n.gen < nextGen
      modifies this`disk, this`view, this`trace
      ensures Valid() && Held(old(trace), trace, old(view)) && view == old(view) && disk.marker == old(disk.marker)
      ensures ok ==> n !in old(disk.entries) && disk == Filled(Created(old(disk), n), n, c)
      ensures reliable && n !in old(disk.entries) ==> ok
      ensures forall x :: x != n ==> (x in disk.entries <==> x in old(disk.entries))
      ensures tidies && !ok ==> disk.entries == old(disk.entries)
    {
      hide Good, TraceOk, AllBelow, EvidenceStays;
      if n in disk.entries {
        return false;
      }
      var opens, writes, removes: bool := *, *, *;
      if !reliable && !opens {
        return false;
      }
      if intact {
        CreateKeeps(disk, view, nextGen, n);
        FillKeeps(Created(disk, n), view, nextGen, n, c);
        UnlinkKeeps(Created(disk, n), view, nextGen, n);
      }
      Move(Created(disk, n), view);
      if !reliable && !writes {
        if removes || tidies {
          Move(Unlinked(disk, n), view);
        }
        return false;
      }
      Move(Filled(disk, n, c), view);
      return true;
    }

    /** Remove what was created, newest first, as far as it goes. */
    method Rollback(created: seq<Name>)
      requires Valid() && (intact ==> forall n :: n in created ==> Spare(view, n))
      modifies this`disk, this`view, this`trace
      ensures Valid() && Held(old(trace), trace, old(view)) && view == old(view) && disk.marker == old(disk.marker)
      ensures forall n :: n in disk.entries ==> n in old(disk.entries) && disk.entries[n] == old(disk.entries)[n]
      ensures tidies ==> disk.entries.Keys == old(disk.entries.Keys) - Names(created)
    {
      hide Good, TraceOk, AllBelow, EvidenceStays;
      var i := |created|;
      while i > 0
        invariant 0 <= i <= |created| && Valid() && Held(old(trace), trace, old(view)) && view == old(view)
        invariant disk.marker == old(disk.marker) && intact == old(intact)
        invariant forall n :: n in disk.entries ==> n in old(disk.entries) && disk.entries[n] == old(disk.entries)[n]
        invariant tidies ==> disk.entries.Keys == old(disk.entries.Keys) - Names(created[i..])
      {
        i := i - 1;
        var removed: bool := *;
        if removed || tidies {
          if intact {
            UnlinkKeeps(disk, view, nextGen, created[i]);
          }
          Move(Unlinked(disk, created[i]), view);
        }
      }
    }

    /** Write the three files of a generation. */
    method WriteMaterials(m: Credential, g: Gen, reliable: bool) returns (ok: bool, files: map<Kind, Entry>, created: seq<Name>)
      requires Valid() && Acceptable(m) && g < nextGen && (intact ==> Unused(disk, view, g))
      modifies this`disk, this`view, this`trace
      ensures Valid() && Held(old(trace), trace, old(view)) && view == old(view) && disk.marker == old(disk.marker)
      ensures forall n :: n in created ==> Own(n) && n.gen == g && n !in old(disk.entries)
      ensures ok || tidies ==> disk.entries.Keys == old(disk.entries.Keys) + Names(created)
      ensures intact && ok ==> Written(disk, files, g, m) && old(disk.next) <= disk.next && Manifest(g) !in disk.entries
      ensures ok ==> forall k: Kind :: k in files
      ensures SameLinks(old(disk), disk)
      ensures reliable && intact ==> ok
    {
      hide Good, TraceOk, AllBelow, EvidenceStays, Tidy, Shows, Whole, Intact, Later, Written;
      files, created := map[], [];
      NothingWritten(disk, g, m);
      var i := 0;
      while i < |KINDS|
        invariant i <= |KINDS| && Valid() && intact == old(intact)
        invariant Held(old(trace), trace, old(view)) && view == old(view) && disk.marker == old(disk.marker)
        invariant forall n :: n in created ==> Own(n) && n.gen == g && n !in old(disk.entries)
        invariant forall n :: n in old(disk.entries) ==> n in disk.entries
        invariant disk.entries.Keys == old(disk.entries.Keys) + Names(created)
        invariant forall k :: k in files <==> k in KINDS[..i]
        invariant old(disk.next) <= disk.next
        invariant intact ==> Written(disk, files, g, m)
        invariant intact ==> forall n :: n in disk.entries && Own(n) && n.gen == g ==> n.Material? && n.kind in files
        invariant SameLinks(old(disk), disk)
      {
        var k := KINDS[i];
        var name := Material(k, g);
        KindNew(i);
        if intact {
          GoodTidy(disk, view, nextGen);
          OneFileMore(disk, files, g, m, k);
        }
        ok := WriteFile(name, Raw(BytesOf(m, k)), reliable);
        if !ok {
          return;
        }
        created := created + [name];
        files := files[k := Entry(name, BytesOf(m, k))];
        i := i + 1;
      }
      ok := true;
      AllWritten(files);
    }

    /** Write the three files of a new generation and its manifest. */
    method WriteGeneration(m: Credential, reliable: bool) returns (ok: bool, g: Gen, created: seq<Name>)
      requires Valid() && Acceptable(m)
      modifies this`disk, this`view, this`trace, this`nextGen
      ensures Valid() && Held(old(trace), trace, old(view)) && view == old(view) && disk.marker == old(disk.marker)
      ensures g == old(nextGen) && nextGen == g + 1 && (intact && view.Holding? ==> view.gen < g)
      ensures forall n :: n in created ==> Own(n) && n.gen == g && n !in old(disk.entries)
      ensures ok || tidies ==> disk.entries.Keys == old(disk.entries.Keys) + Names(created)
      ensures ok ==> Manifest(g) in disk.entries
      ensures intact && ok ==> old(disk.next) <= disk.entries[Manifest(g)]
                               && Whole(disk, g, disk.entries[Manifest(g)], m)
      ensures SameLinks(old(disk), disk)
      ensures reliable && intact ==> ok
    {
      hide Good, TraceOk, AllBelow, EvidenceStays, Tidy, Shows, Whole, Intact, Later, Written;
      g := nextGen;
      if intact {
        FreshGen(trace, disk, view, g);
      }
      nextGen := nextGen + 1;
      var files;
      ok, files, created := WriteMaterials(m, g, reliable);
      if !ok {
        return;
      }
      var manifest := Manifest(g);
      if intact {
        GoodTidy(disk, view, nextGen);
        ManifestMakesWhole(disk, files, g, m);
      }
      ok := WriteFile(manifest, Document(Doc(m.identity, files)), reliable);
      if ok {
        created := created + [manifest];
      }
    }

    /** Make the evidence exist; an entry left by an interrupted call counts. */
    method RecordInstalled(reliable: bool) returns (ok: bool)
      requires Valid()
      modifies this`disk, this`view, this`trace
      ensures Valid() && Kept(old(trace), trace, old(view)) && view == old(view)
      ensures disk == old(disk) || disk == old(disk).(marker := true)
      ensures ok ==> disk.marker
      ensures reliable ==> ok
    {
      hide Good, TraceOk, AllBelow, EvidenceStays;
      var opens, writes, syncs: bool := *, *, *;
      if !disk.marker {
        if !reliable && !opens {
          return false;
        }
        if intact {
          MarkKeeps(disk, view, nextGen);
        }
        Move(disk.(marker := true), view);
        if !reliable && !writes {
          return false;
        }
      }
      return reliable || syncs;
    }

    /** The committed identity after the full check; nothing is unpaired once the evidence exists. */
    method InstalledNodeId(reliable: bool) returns (r: Answer)
      requires Valid()
      modifies this`disk, this`view, this`trace
      ensures Valid() && Kept(old(trace), trace, old(view)) && view == old(view)
      ensures disk == old(disk) || disk == old(disk).(marker := true)
      ensures r == ReadNow(old(disk)) || r == Refused
      ensures reliable ==> r == ReadNow(old(disk))
      ensures r.Installed? ==> disk.marker && (intact ==> view.Holding? && view.held == r.held)
      ensures r.Unpaired? ==> !disk.marker && Current !in disk.entries
      ensures reliable && intact && old(view).Holding? ==> r == Installed(view.held)
    {
      hide Good, TraceOk, AllBelow, EvidenceStays, FileRead, SameFile, GenOf, OpenCurrent, Tidy, Shows;
      var readable: bool := *;
      if !reliable && !readable {
        return Refused;
      }
      if intact {
        GoodReads(disk, view, nextGen);
      }
      if Current !in disk.entries {
        return if disk.marker then Refused else Unpaired;
      }
      var doc := OpenCurrent(disk);
      if doc.None? || GenOf(doc.value).None? {
        return Refused;
      }
      var g := GenOf(doc.value).value;
      var i := 0;
      while i < |KINDS|
        invariant i <= |KINDS| && forall j :: 0 <= j < i ==> FileRead(disk, doc.value, KINDS[j], g)
      {
        if !FileRead(disk, doc.value, KINDS[i], g) {
          return Refused;
        }
        i := i + 1;
      }
      if !SameFile(disk, disk, g) {
        return Refused;
      }
      assert FileRead(disk, doc.value, KINDS[0], g) && FileRead(disk, doc.value, KINDS[1], g) && FileRead(disk, doc.value, KINDS[2], g);
      var recorded := RecordInstalled(reliable);
      if !recorded {
        return Refused;
      }
      return Installed(Credential(doc.value.identity, BytesAt(disk, Material(PrivateKey, g)), BytesAt(disk, Material(ClientCertificate, g)),
                                  BytesAt(disk, Material(CaCertificate, g))));
    }

    /** The first identity: refused over a commit or over the evidence of one. */
    method Install(m: Credential, reliable: bool) returns (ok: bool)
      requires Valid() && Acceptable(m)
      modifies this
      ensures Valid() && intact == old(intact)
      ensures Current in old(disk.entries) || old(disk.marker) ==> !ok && disk == old(disk) && trace == old(trace)
      ensures Became(old(trace), trace, old(view), m)
      ensures forall i :: |old(trace)| <= i < |trace| && trace[i].view == Nothing ==> trace[i].disk.marker == old(disk.marker)
      ensures view == old(view) || (view.Holding? && view.held == m)
      ensures ok ==> disk.marker && view.Holding? && view.held == m
      ensures tidies && Current !in disk.entries ==> disk.entries.Keys == old(disk.entries.Keys)
      ensures reliable && intact && old(view).Nothing? && !old(disk.marker) ==> ok
    {
      hide Good, TraceOk, AllBelow, EvidenceStays, Tidy, Whole, Shows;
      if intact {
        GoodCurrent(disk, view, nextGen);
      }
      if Current in disk.entries || disk.marker {
        return false;
      }
      var created, g;
      ok, g, created := WriteGeneration(m, reliable);
      var links, syncs: bool := *, *;
      if !ok || (!reliable && !links) || Current in disk.entries {
        Rollback(created);
        return false;
      }
      var manifest := Manifest(g);
      if intact {
        LinkCommits(disk, nextGen, g, m);
      }
      Move(Linked(disk, manifest, Current), Holding(g, disk.entries[manifest], m));
      if !reliable && !syncs {
        return false;
      }
      ok := RecordInstalled(reliable);
    }

    /** Rotate the same node's credentials, or replace the node by another of the same deployment. */
    method Swap(m: Credential, sameNode: bool, reliable: bool) returns (ok: bool)
      requires Valid() && Acceptable(m)
      modifies this
      ensures Valid() && intact == old(intact)
      ensures Became(old(trace), trace, old(view), m)
      ensures intact && old(view) == Nothing ==> !ok
      ensures intact && view != old(view) ==> Swappable(old(view), m.identity, sameNode)
      ensures intact && ok ==> disk.marker && view != old(view) && view.Holding? && view.held == m
      ensures intact && reliable && old(view).Holding? ==> (ok <==> Swappable(old(view), m.identity, sameNode))
      ensures intact && reliable && ok ==> Dropped(disk, old(view).gen)
      ensures !ReadNow(old(disk)).Installed? ==> !ok && disk.entries == old(disk.entries) && disk.contents == old(disk.contents)
      ensures tidies && intact && view == old(view) ==> disk.entries.Keys + {Next} == old(disk.entries.Keys) + {Next}
    {
      hide Good, TraceOk, AllBelow, EvidenceStays, Tidy, Whole, Shows;
      var r := InstalledNodeId(reliable);
      if !r.Installed? {
        return false;
      }
      ok := SwapLocked(m, sameNode, reliable);
    }

    /** The swap itself, from whatever is committed once the lock is held. */
    method SwapLocked(m: Credential, sameNode: bool, reliable: bool) returns (ok: bool)
      requires Valid() && Acceptable(m)
      modifies this
      ensures Valid() && intact == old(intact)
      ensures Became(old(trace), trace, old(view), m)
      ensures intact && old(view) == Nothing ==> !ok
      ensures intact && view != old(view) ==> Swappable(old(view), m.identity, sameNode)
      ensures intact && ok ==> disk.marker && view != old(view) && view.Holding? && view.held == m
      ensures intact && reliable && old(view).Holding? ==> (ok <==> Swappable(old(view), m.identity, sameNode))
      ensures intact && reliable && ok ==> Dropped(disk, old(view).gen)
      ensures tidies && intact && view == old(view) ==> disk.entries.Keys + {Next} == old(disk.entries.Keys) + {Next}
    {
      hide Good, TraceOk, AllBelow, EvidenceStays, Tidy, Whole, Shows, Swappable, OpenCurrent, GenOf;
      if intact {
        GoodCurrent(disk, view, nextGen);
        SwapsWhen(view, m.identity, sameNode);
      }
      if Current !in disk.entries {
        return false;
      }
      var doc := OpenCurrent(disk);
      if doc.None? || GenOf(doc.value).None? {
        return false;
      }
      if doc.value.identity.deployment != m.identity.deployment || (doc.value.identity.node == m.identity.node) != sameNode {
        return false;
      }
      ok := Replace(m, GenOf(doc.value).value, reliable);
    }

    /** Remove a link that an earlier swap left before its rename. */
    method ClearNext(reliable: bool) returns (ok: bool)
      requires Valid()
      modifies this`disk, this`view, this`trace
      ensures Valid() && Held(old(trace), trace, old(view)) && view == old(view)
      ensures disk == old(disk) || disk == Unlinked(old(disk), Next)
      ensures ok ==> Next !in disk.entries
      ensures reliable ==> ok
    {
      hide Good, TraceOk, AllBelow, EvidenceStays;
      var stale: bool := *;
      if Next in disk.entries {
        if !reliable && !stale {
          return false;
        }
        if intact {
          UnlinkKeeps(disk, view, nextGen, Next);
        }
        Stay(Unlinked(disk, Next));
      }
      return true;
    }

    /** Write the new generation and link it beside the current one. */
    method PrepareNext(m: Credential, reliable: bool) returns (ok: bool, g: Gen, created: seq<Name>)
      requires Valid() && Acceptable(m) && (intact ==> view.Holding?)
      modifies this`disk, this`view, this`trace, this`nextGen
      ensures Valid() && Held(old(trace), trace, old(view)) && view == old(view)
      ensures ok ==> Next in disk.entries && forall n :: n in created ==> n == Next || (Own(n) && n.gen == g)
      ensures intact && ok ==> view.gen < g < nextGen && ReadyNext(disk, g, m)
      ensures forall n :: n in created ==> n == Next || n !in old(disk.entries)
      ensures tidies ==> disk.entries.Keys + {Next} == old(disk.entries.Keys) + {Next} + if ok then Names(created) else {}
      ensures intact && reliable ==> ok
    {
      hide Good, TraceOk, AllBelow, EvidenceStays, Tidy, Whole, Shows, Later, OpenCurrent, GenOf;
      g, created := nextGen, [];
      ok := ClearNext(reliable);
      if ok {
        ok, g, created := WriteNext(m, reliable);
      }
    }

    /** The same once no stale link is in the way. */
    method WriteNext(m: Credential, reliable: bool) returns (ok: bool, g: Gen, created: seq<Name>)
      requires Valid() && Acceptable(m) && (intact ==> view.Holding?) && Next !in disk.entries
      modifies this`disk, this`view, this`trace, this`nextGen
      ensures Valid() && Held(old(trace), trace, old(view)) && view == old(view)
      ensures ok ==> Next in disk.entries && forall n :: n in created ==> n == Next || (Own(n) && n.gen == g)
      ensures intact && ok ==> view.gen < g < nextGen && ReadyNext(disk, g, m)
      ensures forall n :: n in created ==> n == Next || n !in old(disk.entries)
      ensures ok ==> disk.entries.Keys == old(disk.entries.Keys) + Names(created)
      ensures tidies && !ok ==> disk.entries.Keys == old(disk.entries.Keys)
      ensures intact && reliable ==> ok
    {
      hide Good, TraceOk, AllBelow, EvidenceStays, Tidy, Whole, Shows, Later, OpenCurrent, GenOf;
      if intact {
        GoodCurrent(disk, view, nextGen);
      }
      var links: bool := *;
      ok, g, created := WriteGeneration(m, reliable);
      if !ok || (!reliable && !links) || Next in disk.entries {
        Rollback(created);
        return false, g, created;
      }
      if intact {
        LinkNextKeeps(disk, view, nextGen, g);
        LinkedWhole(disk, g, m);
      }
      Stay(Linked(disk, Manifest(g), Next));
      created := created + [Next];
    }

    /** The next state of the files, with the same identity shown. */
    method Stay(d: Disk)
      requires Valid() && disk.marker == d.marker && (intact ==> Good(d, view, nextGen))
      modifies this`disk, this`view, this`trace
      ensures Valid() && disk == d && view == old(view) && Held(old(trace), trace, old(view))
    {
      hide Good, TraceOk, AllBelow, EvidenceStays;
      Move(d, view);
    }

    /** Commit the new generation over the current one, then drop the old files. */
    method Replace(m: Credential, superseded: Gen, reliable: bool) returns (ok: bool)
      requires Valid() && Acceptable(m) && (intact ==> view.Holding? && view.gen == superseded)
      modifies this
      ensures Valid() && intact == old(intact)
      ensures Became(old(trace), trace, old(view), m)
      ensures intact && ok ==> disk.marker && view != old(view) && view.Holding? && view.held == m
      ensures intact && reliable ==> ok && Dropped(disk, superseded)
      ensures tidies && intact && view == old(view) ==> disk.entries.Keys + {Next} == old(disk.entries.Keys) + {Next}
    {
      hide Good, TraceOk, AllBelow, EvidenceStays, Tidy, Whole, Shows;
      var renames, syncs, again: bool := *, *, *;
      var g, created;
      ok, g, created := PrepareNext(m, reliable);
      if !ok {
        return;
      }
      if !reliable && !renames {
        Rollback(created);
        return false;
      }
      if intact {
        RenameCommits(disk, view, nextGen, g, m);
      }
      Move(Renamed(disk, Next, Current), Holding(g, disk.entries[Next], m));
      if !reliable && !syncs {
        return false;
      }
      RemoveGeneration(superseded, reliable);
      if !reliable && !again {
        return false;
      }
      ok := RecordInstalled(reliable);
    }

    /** Remove a superseded generation, as far as it goes. */
    method RemoveGeneration(g: Gen, reliable: bool)
      requires Valid() && (intact && view.Holding? ==> view.gen != g)
      modifies this`disk, this`view, this`trace
      ensures Valid() && Held(old(trace), trace, old(view)) && view == old(view) && disk.marker == old(disk.marker)
      ensures reliable ==> Dropped(disk, g)
    {
      hide Good, TraceOk, AllBelow, EvidenceStays;
      var previous := [Material(PrivateKey, g), Material(ClientCertificate, g), Material(CaCertificate, g), Manifest(g)];
      var i := 0;
      while i < |previous|
        invariant i <= |previous| && Valid() && Held(old(trace), trace, old(view)) && view == old(view)
        invariant disk.marker == old(disk.marker) && intact == old(intact)
        invariant reliable ==> forall j :: 0 <= j < i ==> previous[j] !in disk.entries
      {
        var removed: bool := *;
        if removed || reliable {
          if intact {
            UnlinkKeeps(disk, view, nextGen, previous[i]);
          }
          Move(Unlinked(disk, previous[i]), view);
        }
        i := i + 1;
      }
      if reliable {
        AllDropped(disk, g, previous);
      }
    }
  }

  function Names(created: seq<Name>): set<Name> {
    set n | n in created
  }

  /** From one trace to a longer one with the same thing shown all along. */
  ghost predicate Held(t: seq<Moment>, u: seq<Moment>, v: View) {
    t != [] && t <= u && forall i :: |t| <= i < |u| ==> u[i].view == v && u[i].disk.marker == t[|t| - 1].disk.marker
  }

  ghost predicate AllBelow(t: seq<Moment>, g: Gen) {
    forall i :: 0 <= i < |t| ==> GensBelow(t[i].disk, g) && (t[i].view.Holding? ==> t[i].view.gen < g)
  }

  lemma StopAnywhere(t: seq<Moment>, k: nat, g: Gen, intact: bool)
    requires k < |t| && EvidenceStays(t) && (intact ==> TraceOk(t) && AllBelow(t, g))
    ensures EvidenceStays(t[..k + 1])
    ensures intact ==> TraceOk(t[..k + 1]) && AllBelow(t[..k + 1], g) && Good(t[k].disk, t[k].view, g)
  {
  }

  lemma MovesOn(t: seq<Moment>, d: Disk, v: View, e: Disk, w: View, g: Gen)
    requires t != [] && t[|t| - 1] == Moment(d, v) && TraceOk(t) && AllBelow(t, g) && Good(e, w, g) && Later(v, w)
    ensures TraceOk(t + [Moment(e, w)]) && AllBelow(t + [Moment(e, w)], g)
  {
    hide Tidy, Shows, GensBelow, Later, TraceOk;
    TraceGrows(t, Moment(e, w));
  }

  /** A generation not used before has no files yet. */
  lemma FreshGen(t: seq<Moment>, d: Disk, v: View, g: Gen)
    requires Good(d, v, g) && AllBelow(t, g)
    ensures Good(d, v, g + 1) && AllBelow(t, g + 1) && (v.Holding? ==> v.gen < g)
    ensures forall n :: n in d.entries && Own(n) ==> n.gen != g
  {
  }

  lemma GoodTidy(d: Disk, v: View, g: Gen)
    requires Good(d, v, g)
    ensures Tidy(d)
  {
  }

  lemma KindNew(i: nat)
    requires i < |KINDS|
    ensures KINDS[i] !in KINDS[..i]
  {
  }

  lemma NothingWritten(d: Disk, g: Gen, m: Credential)
    ensures Written(d, map[], g, m)
  {
  }

  lemma AllWritten(files: map<Kind, Entry>)
    requires forall k :: k in files <==> k in KINDS[..|KINDS|]
    ensures forall k: Kind :: k in files
  {
    forall k: Kind
      ensures k in files
    {
      assert KINDS[..|KINDS|] == KINDS;
      match k {
        case PrivateKey => assert KINDS[0] == k;
        case ClientCertificate => assert KINDS[1] == k;
        case CaCertificate => assert KINDS[2] == k;
      }
    }
  }

  ghost predicate Kept(t: seq<Moment>, u: seq<Moment>, v: View) {
    t <= u && forall i :: |t| <= i < |u| ==> u[i].view == v
  }

  /** A stop at any new moment leaves what was shown before, or the new identity. */
  ghost predicate Became(t: seq<Moment>, u: seq<Moment>, v: View, x: Credential) {
    t <= u && forall i :: |t| <= i < |u| ==> u[i].view == v || (u[i].view.Holding? && u[i].view.held == x)
  }

  /** No file of a generation is left. */
  ghost predicate Dropped(d: Disk, g: Gen) {
    Manifest(g) !in d.entries && forall k: Kind :: Material(k, g) !in d.entries
  }

  lemma AllDropped(d: Disk, g: Gen, names: seq<Name>)
    requires names == [Material(PrivateKey, g), Material(ClientCertificate, g), Material(CaCertificate, g), Manifest(g)]
    requires forall j :: 0 <= j < |names| ==> names[j] !in d.entries
    ensures Dropped(d, g)
  {
    assert names[0] !in d.entries && names[1] !in d.entries && names[2] !in d.entries && names[3] !in d.entries;
    forall k: Kind
      ensures Material(k, g) !in d.entries
    {
      match k {
        case PrivateKey =>
        case ClientCertificate =>
        case CaCertificate =>
      }
    }
  }

  /** Same deployment, and the same node exactly when rotating. */
  predicate Swappable(v: View, x: Identity, sameNode: bool) {
    v.Holding? && v.held.identity.deployment == x.deployment && (v.held.identity.node == x.node <==> sameNode)
  }

  lemma GoodReads(d: Disk, v: View, g: Gen)
    requires Good(d, v, g)
    ensures ReadNow(d) == match v case Nothing => (if d.marker then Refused else Unpaired) case Holding(_, _, m) => Installed(m)
  {
    ReadsView(d, v);
  }

  lemma GoodCurrent(d: Disk, v: View, g: Gen)
    requires Good(d, v, g)
    ensures Current in d.entries <==> v.Holding?
    ensures v.Holding? ==> d.entries[Current] == v.inode < d.next && OpenCurrent(d).Some?
                           && GenOf(OpenCurrent(d).value) == Some(v.gen) && OpenCurrent(d).value.identity == v.held.identity
  {
    if v.Holding? {
      OpensCurrent(d, v);
    }
  }

  lemma SwapsWhen(v: View, x: Identity, sameNode: bool)
    ensures Swappable(v, x, sameNode) <==>
            v.Holding? && v.held.identity.deployment == x.deployment && (v.held.identity.node == x.node) == sameNode
  {
  }

  lemma LinkedWhole(d: Disk, g: Gen, x: Credential)
    requires Manifest(g) in d.entries && Whole(d, g, d.entries[Manifest(g)], x)
    ensures Whole(Linked(d, Manifest(g), Next), g, d.entries[Manifest(g)], x)
  {
  }

  ghost predicate SameLinks(d: Disk, e: Disk) {
    (Next in e.entries <==> Next in d.entries) && (Current in e.entries <==> Current in d.entries)
  }

  /** No file of this generation yet. */
  ghost predicate Unused(d: Disk, v: View, g: Gen) {
    (v.Holding? ==> v.gen < g) && forall n :: n in d.entries && Own(n) ==> n.gen != g
  }

  /** The next manifest is whole and linked, ready to be renamed over the current one. */
  ghost predicate ReadyNext(d: Disk, g: Gen, x: Credential) {
    && Next in d.entries && Manifest(g) in d.entries && d.entries[Next] == d.entries[Manifest(g)]
    && Whole(d, g, d.entries[Next], x)
  }

  // ---------- what a stop at any point leaves ----------

  /** After a stop anywhere in a swap or install, the files read as before it or as the new identity. */
  lemma StopReadsOldOrNew(t: seq<Moment>, u: seq<Moment>, v: View, x: Credential, i: nat)
    requires TraceOk(u) && Became(t, u, v, x) && |t| <= i < |u|
    ensures v.Holding? ==> ReadNow(u[i].disk) in {Installed(v.held), Installed(x)}
    ensures v.Nothing? ==> ReadNow(u[i].disk) in {Installed(x), if u[i].disk.marker then Refused else Unpaired}
  {
    hide ReadNow, Tidy, Shows;
    ReadsView(u[i].disk, u[i].view);
  }

  /** An identity given up does not come back. */
  lemma NeverBack(t: seq<Moment>, i: nat, j: nat, k: nat)
    requires TraceOk(t) && i <= j <= k < |t| && t[i].view == t[k].view
    ensures t[j].view == t[i].view
  {
    hide Tidy, Shows;
    LaterOrSame(t, i, j);
    LaterOrSame(t, j, k);
  }

  /** Once the evidence exists no reader, however its looks fall, finds the node unpaired: not even in a lost directory. */
  lemma NeverUnpairedAgain(t: seq<Moment>, i: nat, opens: nat, evidence: nat, a: nat, b: nat, c: nat, p: nat, q: nat)
    requires EvidenceStays(t) && i < |t| && t[i].disk.marker && i <= opens <= evidence < |t|
    requires opens <= a <= b <= c <= p <= q < |t|
    ensures ReadAcross(t[opens].disk, t[evidence].disk, t[a].disk, t[b].disk, t[c].disk, t[p].disk, t[q].disk) != Unpaired
  {
    assert i < evidence ==> t[evidence].disk.marker;
  }
}
