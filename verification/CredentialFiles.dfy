/**
 The node credential directory: hard links, the manifests they name, and what a
 reader that takes no lock makes of the directory while a writer is at work.
 */
module CredentialFiles {
  import opened Basics

  type Gen = nat
  type Inode = nat

  const MAX_MATERIAL_BYTES := 256 * 1024

  datatype Kind = PrivateKey | ClientCertificate | CaCertificate

  /** The names in the directory; `Next` is the link a swap prepares before its rename. */
  datatype Name = Current | Next | Manifest(gen: Gen) | Material(kind: Kind, gen: Gen)

  datatype Identity = Identity(deployment: nat, node: nat, server: string)

  /** An identity with its key and certificates. */
  datatype Credential = Credential(identity: Identity, privateKey: seq<Byte>, clientCertificate: seq<Byte>, caCertificate: seq<Byte>)

  /** What a manifest says of one file; size and digest stand for the content. */
  datatype Entry = Entry(name: Name, content: seq<Byte>)
  datatype Doc = Doc(identity: Identity, files: map<Kind, Entry>)

  /** A file is empty or cut short until it is written in full. */
  datatype Content = Partial | Raw(bytes: seq<Byte>) | Document(doc: Doc)

  /** The directory, and the evidence file in the runtime root. */
  datatype Disk = Disk(entries: map<Name, Inode>, contents: map<Inode, Content>, next: Inode, marker: bool)

  predicate Own(n: Name) {
    n.Manifest? || n.Material?
  }

  function Links(d: Disk, i: Inode): set<Name> {
    set n | n in d.entries.Keys && d.entries[n] == i
  }

  // ---------- file operations ----------

  function Created(d: Disk, n: Name): Disk {
    d.(entries := d.entries[n := d.next], contents := d.contents[d.next := Partial], next := d.next + 1)
  }

  function Filled(d: Disk, n: Name, c: Content): Disk
    requires n in d.entries
  {
    d.(contents := d.contents[d.entries[n] := c])
  }

  function Unlinked(d: Disk, n: Name): Disk {
    d.(entries := d.entries - {n})
  }

  function Linked(d: Disk, from: Name, n: Name): Disk
    requires from in d.entries
  {
    d.(entries := d.entries[n := d.entries[from]])
  }

  /** Rename over whatever was there, in one step. */
  function Renamed(d: Disk, from: Name, n: Name): Disk
    requires from in d.entries
  {
    d.(entries := (d.entries - {from})[n := d.entries[from]])
  }

  // ---------- what the directory shows ----------

  datatype View = Nothing | Holding(gen: Gen, inode: Inode, held: Credential)

  /** A file of its own with the recorded content. */
  predicate Intact(d: Disk, n: Name, content: seq<Byte>) {
    n in d.entries && d.entries[n] in d.contents && d.contents[d.entries[n]] == Raw(content) && 0 < |content| <= MAX_MATERIAL_BYTES
  }

  /** The manifest of a generation describes exactly this credential. */
  predicate Describes(doc: Doc, g: Gen, m: Credential) {
    && doc.identity == m.identity && PrivateKey in doc.files && ClientCertificate in doc.files && CaCertificate in doc.files
    && doc.files[PrivateKey] == Entry(Material(PrivateKey, g), m.privateKey)
    && doc.files[ClientCertificate] == Entry(Material(ClientCertificate, g), m.clientCertificate)
    && doc.files[CaCertificate] == Entry(Material(CaCertificate, g), m.caCertificate)
  }

  /** A manifest of one generation that describes a credential, with all three of its files in place. */
  ghost predicate Whole(d: Disk, g: Gen, i: Inode, m: Credential) {
    && Manifest(g) in d.entries && d.entries[Manifest(g)] == i && i in d.contents && d.contents[i].Document?
    && Describes(d.contents[i].doc, g, m)
    && forall k: Kind :: k in d.contents[i].doc.files && d.contents[i].doc.files[k].name == Material(k, g)
                         && Intact(d, Material(k, g), d.contents[i].doc.files[k].content)
  }

  ghost predicate Shows(d: Disk, v: View) {
    match v
    case Nothing => Current !in d.entries && Next !in d.entries
    case Holding(g, i, m) => Current in d.entries && d.entries[Current] == i && Whole(d, g, i, m)
  }

  /** How the names share files. */
  ghost predicate Tidy(d: Disk) {
    && (forall n :: n in d.entries ==> d.entries[n] < d.next)
    && (forall n, m :: n in d.entries && m in d.entries && Own(n) && Own(m) && d.entries[n] == d.entries[m] ==> n == m)
    && (Next in d.entries ==> forall n :: n in d.entries && Own(n) && d.entries[n] == d.entries[Next] ==> n.Manifest?)
    && (Current in d.entries && Next in d.entries ==> d.entries[Current] < d.entries[Next])
  }

  /** Views only move forward, to a later generation in a newer file. */
  predicate Later(v: View, w: View) {
    v == w || (w.Holding? && (v.Nothing? || (v.gen < w.gen && v.inode < w.inode)))
  }

  lemma LinksOfCurrent(d: Disk, v: View)
    requires Tidy(d) && v.Holding? && Shows(d, v)
    ensures Links(d, v.inode) == {Current, Manifest(v.gen)} && |Links(d, v.inode)| == 2
  {
    var links := Links(d, v.inode);
    forall n
      ensures n in links <==> n in {Current, Manifest(v.gen)}
    {
      assert n in links && Own(n) ==> n == Manifest(v.gen);
    }
    assert links == {Current, Manifest(v.gen)};
  }

  lemma LinksOfMaterial(d: Disk, v: View, k: Kind)
    requires Tidy(d) && v.Holding? && Shows(d, v)
    ensures Material(k, v.gen) in d.entries
    ensures Links(d, d.entries[Material(k, v.gen)]) == {Material(k, v.gen)}
    ensures |Links(d, d.entries[Material(k, v.gen)])| == 1
  {
    var name := Material(k, v.gen);
    assert Intact(d, name, d.contents[v.inode].doc.files[k].content);
    var links := Links(d, d.entries[name]);
    assert d.entries[Manifest(v.gen)] != d.entries[name];
    forall n
      ensures n in links <==> n in {name}
    {
      assert n in links && Own(n) ==> n == name;
    }
    assert links == {name};
  }

  /** A file no longer current keeps at most its own name. */
  lemma RetiredLinks(d: Disk, v: View, i: Inode)
    requires Tidy(d) && v.Holding? && Shows(d, v) && i < v.inode
    ensures |Links(d, i)| <= 1
  {
    var links := Links(d, i);
    assert forall n, m :: n in links && m in links ==> n == m;
    if n :| n in links {
      assert links == {n};
    } else {
      assert links == {};
    }
  }

  // ---------- reading without the lock ----------

  /** An answer carries the identity and the bytes of the three files as they were read. */
  datatype Answer = Refused | Unpaired | Installed(held: Credential)

  /** The generation named by all three files of a well-formed manifest. */
  function GenOf(doc: Doc): Option<Gen> {
    if PrivateKey in doc.files && doc.files[PrivateKey].name.Material? && |doc.files| == 3
    then Some(doc.files[PrivateKey].name.gen) else None
  }

  predicate FileRead(d: Disk, doc: Doc, k: Kind, g: Gen) {
    && k in doc.files && doc.files[k].name == Material(k, g) && Intact(d, Material(k, g), doc.files[k].content)
    && |Links(d, d.entries[Material(k, g)])| == 1
  }

  /** The bytes of a file as a reader finds them. */
  function BytesAt(d: Disk, n: Name): seq<Byte> {
    if n in d.entries && d.entries[n] in d.contents && d.contents[d.entries[n]].Raw? then d.contents[d.entries[n]].bytes else []
  }

  /** The current manifest, if it opens as a file with two links. */
  function OpenCurrent(d: Disk): Option<Doc>
    requires Current in d.entries
  {
    var i := d.entries[Current];
    if i in d.contents && d.contents[i].Document? && |Links(d, i)| == 2 then Some(d.contents[i].doc) else None
  }

  /** Both names are one file with two links. */
  predicate SameFile(atCurrent: Disk, atManifest: Disk, g: Gen) {
    && Current in atCurrent.entries && Manifest(g) in atManifest.entries
    && atCurrent.entries[Current] == atManifest.entries[Manifest(g)]
    && |Links(atManifest, atManifest.entries[Manifest(g)])| == 2
  }

  /** The answer of a reader whose looks at the directory fall on these states, in turn. */
  function ReadAcross(opens: Disk, evidence: Disk, a: Disk, b: Disk, c: Disk, atCurrent: Disk, atManifest: Disk): Answer {
    if Current !in opens.entries then
      if evidence.marker then Refused else Unpaired
    else
      var doc := OpenCurrent(opens);
      if doc.None? || GenOf(doc.value).None? then Refused
      else
        var g := GenOf(doc.value).value;
        if FileRead(a, doc.value, PrivateKey, g) && FileRead(b, doc.value, ClientCertificate, g)
           && FileRead(c, doc.value, CaCertificate, g) && SameFile(atCurrent, atManifest, g)
        then
          Installed(Credential(doc.value.identity, BytesAt(a, Material(PrivateKey, g)), BytesAt(b, Material(ClientCertificate, g)),
                               BytesAt(c, Material(CaCertificate, g))))
        else Refused
  }

  function ReadNow(d: Disk): Answer {
    ReadAcross(d, d, d, d, d, d, d)
  }

  lemma AllKinds(files: map<Kind, Entry>)
    requires forall k: Kind :: k in files
    ensures |files| == 3
  {
    forall k: Kind
      ensures k in files.Keys <==> k in {PrivateKey, ClientCertificate, CaCertificate}
    {
      match k {
        case PrivateKey =>
        case ClientCertificate =>
        case CaCertificate =>
      }
    }
    assert files.Keys == {PrivateKey, ClientCertificate, CaCertificate};
    assert |files| == |files.Keys|;
  }

  lemma OpensCurrent(d: Disk, v: View)
    requires Tidy(d) && v.Holding? && Shows(d, v)
    ensures OpenCurrent(d).Some? && GenOf(OpenCurrent(d).value) == Some(v.gen)
    ensures OpenCurrent(d).value == d.contents[v.inode].doc && Describes(OpenCurrent(d).value, v.gen, v.held)
  {
    LinksOfCurrent(d, v);
    AllKinds(d.contents[v.inode].doc.files);
  }

  /** At rest, the directory reads as what it shows. */
  lemma ReadsView(d: Disk, v: View)
    requires Tidy(d) && Shows(d, v)
    ensures ReadNow(d) == match v case Nothing => (if d.marker then Refused else Unpaired) case Holding(_, _, m) => Installed(m)
  {
    if v.Holding? {
      OpensCurrent(d, v);
      LinksOfCurrent(d, v);
      FilesRead(d, v);
    }
  }

  lemma FilesRead(d: Disk, v: View)
    requires Tidy(d) && v.Holding? && Shows(d, v)
    ensures forall k: Kind :: FileRead(d, d.contents[v.inode].doc, k, v.gen)
  {
    forall k: Kind
      ensures FileRead(d, d.contents[v.inode].doc, k, v.gen)
    {
      LinksOfMaterial(d, v, k);
    }
  }

  /** No other name leads to the file of this one. */
  ghost predicate Sole(d: Disk, n: Name) {
    n in d.entries && forall x :: x in d.entries && d.entries[x] == d.entries[n] ==> x == n
  }

  lemma SoleLink(d: Disk, n: Name)
    requires n in d.entries
    ensures |Links(d, d.entries[n])| == 1 <==> Sole(d, n)
  {
    var links := Links(d, d.entries[n]);
    assert forall x :: x in links <==> x in d.entries && d.entries[x] == d.entries[n];
    hide Links;
    if |links| == 1 {
      OneMember(links, n);
    }
    if Sole(d, n) {
      assert links == {n};
    }
  }

  lemma OneMember(names: set<Name>, n: Name)
    requires n in names && |names| == 1
    ensures names == {n}
  {
    assert |names - {n}| == 0;
  }

  lemma TwoLinks(d: Disk, n: Name, m: Name)
    requires n in d.entries && m in d.entries && d.entries[n] == d.entries[m] && n != m
    ensures |Links(d, d.entries[n])| == 2 <==> forall x :: x in d.entries && d.entries[x] == d.entries[n] ==> x == n || x == m
  {
    var links := Links(d, d.entries[n]);
    assert forall x :: x in links <==> x in d.entries && d.entries[x] == d.entries[n];
    hide Links;
    if |links| == 2 {
      OneMember(links - {n}, m);
      assert links == (links - {n}) + {n};
    }
    if forall x :: x in d.entries && d.entries[x] == d.entries[n] ==> x == n || x == m {
      assert links == {n, m};
    }
  }

  /** A file of its own that holds these bytes, within the limit. */
  ghost predicate Stores(d: Disk, n: Name, bytes: seq<Byte>) {
    Sole(d, n) && d.entries[n] in d.contents && d.contents[d.entries[n]] == Raw(bytes) && 1 <= |bytes| <= 262144
  }

  /** One manifest under just the two names, describing exactly this credential in three files of its generation. */
  ghost predicate Commits(d: Disk, g: Gen, m: Credential) {
    && Current in d.entries && Manifest(g) in d.entries && d.entries[Current] == d.entries[Manifest(g)]
    && (forall x :: x in d.entries && d.entries[x] == d.entries[Current] ==> x == Current || x == Manifest(g))
    && d.entries[Current] in d.contents && d.contents[d.entries[Current]].Document?
    && |d.contents[d.entries[Current]].doc.files| == 3 && Describes(d.contents[d.entries[Current]].doc, g, m)
    && Stores(d, Material(PrivateKey, g), m.privateKey) && Stores(d, Material(ClientCertificate, g), m.clientCertificate)
    && Stores(d, Material(CaCertificate, g), m.caCertificate)
  }

  lemma FileReadMeans(d: Disk, doc: Doc, k: Kind, g: Gen, bytes: seq<Byte>)
    ensures FileRead(d, doc, k, g) && BytesAt(d, Material(k, g)) == bytes <==>
            k in doc.files && doc.files[k] == Entry(Material(k, g), bytes) && Stores(d, Material(k, g), bytes)
  {
    if Material(k, g) in d.entries {
      SoleLink(d, Material(k, g));
    }
    hide Sole, Links;
  }

  lemma SameFileMeans(d: Disk, g: Gen)
    ensures SameFile(d, d, g) <==>
            && Current in d.entries && Manifest(g) in d.entries && d.entries[Current] == d.entries[Manifest(g)]
            && (forall x :: x in d.entries && d.entries[x] == d.entries[Current] ==> x == Current || x == Manifest(g))
  {
    if Current in d.entries && Manifest(g) in d.entries && d.entries[Current] == d.entries[Manifest(g)] {
      TwoLinks(d, Current, Manifest(g));
    }
  }

  /** Whatever the directory holds, tampered or not: a credential is read exactly if it is committed, and nothing is paired exactly without commit and evidence. */
  lemma ReadMeans(d: Disk, m: Credential)
    ensures ReadNow(d) == Installed(m) <==> exists g :: Commits(d, g, m)
    ensures ReadNow(d) == Unpaired <==> Current !in d.entries && !d.marker
  {
    if g :| Commits(d, g, m) {
      ReadsCommit(d, g, m);
    }
    if ReadNow(d) == Installed(m) {
      var g := GenOf(OpenCurrent(d).value).value;
      ReadsCommit(d, g, m);
    }
  }

  lemma ReadsCommit(d: Disk, g: Gen, m: Credential)
    ensures Commits(d, g, m) <==>
            && Current in d.entries && OpenCurrent(d).Some? && GenOf(OpenCurrent(d).value) == Some(g) && ReadNow(d) == Installed(m)
  {
    if Current in d.entries && d.entries[Current] in d.contents && d.contents[d.entries[Current]].Document? {
      var doc := d.contents[d.entries[Current]].doc;
      FileReadMeans(d, doc, PrivateKey, g, m.privateKey);
      FileReadMeans(d, doc, ClientCertificate, g, m.clientCertificate);
      FileReadMeans(d, doc, CaCertificate, g, m.caCertificate);
      SameFileMeans(d, g);
      hide Stores, FileRead, BytesAt;
    }
  }

  // ---------- traces ----------

  datatype Moment = Moment(disk: Disk, view: View)

  /** Every state shows some whole identity or none, and identities only move forward. */
  ghost predicate TraceOk(t: seq<Moment>) {
    && (forall i :: 0 <= i < |t| ==> Tidy(t[i].disk) && Shows(t[i].disk, t[i].view))
    && (forall i, j :: 0 <= i < j < |t| ==> Later(t[i].view, t[j].view))
  }

  lemma TraceGrows(t: seq<Moment>, m: Moment)
    requires t != [] && TraceOk(t) && Tidy(m.disk) && Shows(m.disk, m.view) && Later(t[|t| - 1].view, m.view)
    ensures TraceOk(t + [m])
  {
    hide Tidy, Shows;
    var u := t + [m];
    forall i | 0 <= i < |t|
      ensures Later(u[i].view, m.view)
    {
      assert i < |t| - 1 ==> Later(t[i].view, t[|t| - 1].view);
    }
  }

  /**
   A reader that returns an identity, with a swap going on around it, returns the one
   committed throughout its reading, whole at its last look.
   */
  lemma InterleavedRead(t: seq<Moment>, opens: nat, evidence: nat, a: nat, b: nat, c: nat, atCurrent: nat, atManifest: nat)
    requires TraceOk(t) && opens <= evidence < |t|
    requires opens <= a <= b <= c <= atCurrent <= atManifest < |t|
    ensures var r := ReadAcross(t[opens].disk, t[evidence].disk, t[a].disk, t[b].disk, t[c].disk, t[atCurrent].disk, t[atManifest].disk);
            && (r.Installed? ==> t[opens].view == t[atManifest].view && t[opens].view.Holding? && t[opens].view.held == r.held)
            && (r.Unpaired? ==> t[opens].view == Nothing && !t[evidence].disk.marker)
  {
    hide Tidy, Shows, FileRead, BytesAt;
    var v, w, z := t[opens].view, t[atCurrent].view, t[atManifest].view;
    LaterOrSame(t, opens, atCurrent);
    LaterOrSame(t, atCurrent, atManifest);
    CurrentShown(t[opens].disk, v);
    CurrentShown(t[atCurrent].disk, w);
    if v.Holding? {
      OpensCurrent(t[opens].disk, v);
      var doc := OpenCurrent(t[opens].disk).value;
      ReadsContent(t[a].disk, doc, PrivateKey, v.gen);
      ReadsContent(t[b].disk, doc, ClientCertificate, v.gen);
      ReadsContent(t[c].disk, doc, CaCertificate, v.gen);
      SameFileIsCommitted(t[atManifest].disk, z, w, t[atCurrent].disk, v.gen);
    }
  }

  lemma ReadsContent(d: Disk, doc: Doc, k: Kind, g: Gen)
    ensures FileRead(d, doc, k, g) ==> k in doc.files && BytesAt(d, Material(k, g)) == doc.files[k].content
  {
  }

  lemma LaterOrSame(t: seq<Moment>, i: nat, j: nat)
    requires TraceOk(t) && i <= j < |t|
    ensures Later(t[i].view, t[j].view)
  {
  }

  lemma CurrentShown(d: Disk, v: View)
    requires Shows(d, v)
    ensures Current in d.entries <==> v.Holding?
    ensures v.Holding? ==> d.entries[Current] == v.inode
  {
  }

  lemma SameFileIsCommitted(d: Disk, z: View, w: View, earlier: Disk, g: Gen)
    requires Tidy(d) && Shows(d, z) && Shows(earlier, w) && w.Holding? && Later(w, z)
    ensures SameFile(earlier, d, g) ==> z == w && z.gen == g
  {
    LinksOfCurrent(d, z);
    if SameFile(earlier, d, g) {
      if w.inode < z.inode {
        RetiredLinks(d, z, w.inode);
        assert false;
      }
      assert Manifest(g) in Links(d, z.inode);
    }
  }

  /** Evidence once present stays, whatever else is lost. */
  ghost predicate EvidenceStays(t: seq<Moment>) {
    forall i, j :: 0 <= i < j < |t| ==> t[i].disk.marker ==> t[j].disk.marker
  }
}
