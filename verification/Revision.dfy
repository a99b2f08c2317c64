/**
 Source revisions (`revision_of_bytes` and `snapshot_item` of the Item Lab). The revision hashes the
 NUL-framed bytes of a document's resources; here it is those framed bytes, so the hash is taken to be
 free of collisions.
 */
module Revision {
  import opened Basics
  import opened Journal

  /** Each part followed by one NUL byte, as `revision_of_bytes` feeds them to the digest. */
  function Frame(parts: seq<Bytes>): Bytes {
    if parts == [] then [] else parts[0] + [0] + Frame(parts[1..])
  }

  predicate NoNul(part: Bytes) { 0 !in part }

  function Ascii(text: string): Bytes {
    seq(|text|, i requires 0 <= i < |text| => text[i] as int % 128)
  }

  /** One file of a document, and the marker that stands for it when the file is absent. */
  datatype Resource = Resource(path: string, absent: string)

  /** The sentinels of the Item Lab: each starts with `<`, which no JSON text does. */
  const ABSENT_PRESENTATION := "<absent-presentation>"
  const ABSENT_EQUIPMENT := "<absent-equipment>"
  const ABSENT_NOTES := "<absent-notes>"

  predicate Sentinel(absent: string) {
    absent != "" && absent[0] == '<' && forall i :: 0 <= i < |absent| ==> 0 < absent[i] as int < 128
  }

  /** What every accepted JSON text satisfies: no NUL byte, and it does not begin with `<`. */
  predicate JsonLike(bytes: Bytes) {
    NoNul(bytes) && bytes != [] && bytes[0] != '<' as int
  }

  function PartOf(files: map<string, Bytes>, r: Resource): Bytes {
    if r.path in files then files[r.path] else Ascii(r.absent)
  }

  function Parts(files: map<string, Bytes>, doc: seq<Resource>): seq<Bytes> {
    seq(|doc|, i requires 0 <= i < |doc| => PartOf(files, doc[i]))
  }

  function RevisionOf(files: map<string, Bytes>, doc: seq<Resource>): Bytes {
    Frame(Parts(files, doc))
  }

  /** The document as it is on disk: one optional byte string per resource. */
  function Snapshot(files: map<string, Bytes>, doc: seq<Resource>): seq<Option<Bytes>> {
    seq(|doc|, i requires 0 <= i < |doc| => Lookup(files, doc[i].path))
  }

  ghost predicate Readable(files: map<string, Bytes>, doc: seq<Resource>) {
    forall i :: 0 <= i < |doc| ==> Sentinel(doc[i].absent) && (doc[i].path in files ==> JsonLike(files[doc[i].path]))
  }

  /** Framing loses nothing: NUL-free parts can be read back from the framed bytes. */
  lemma {:induction false} FrameInjective(a: seq<Bytes>, b: seq<Bytes>)
    requires forall i :: 0 <= i < |a| ==> NoNul(a[i])
    requires forall i :: 0 <= i < |b| ==> NoNul(b[i])
    requires Frame(a) == Frame(b)
    ensures a == b
  {
    if a != [] && b != [] {
      FirstNul(a);
      FirstNul(b);
      var n, m := |a[0]|, |b[0]|;
      assert a[0] == Frame(a)[..n] == b[0];
      assert Frame(a[1..]) == Frame(a)[n + 1..] == Frame(b[1..]);
      FrameInjective(a[1..], b[1..]);
      assert a == [a[0]] + a[1..] && b == [b[0]] + b[1..];
    }
  }

  lemma FirstNul(a: seq<Bytes>)
    requires a != [] && NoNul(a[0])
    ensures |Frame(a)| > |a[0]| && Frame(a)[|a[0]|] == 0 && forall i :: 0 <= i < |a[0]| ==> Frame(a)[i] != 0
    ensures Frame(a)[..|a[0]|] == a[0] && Frame(a)[|a[0]| + 1..] == Frame(a[1..])
  {
    forall i | 0 <= i < |a[0]| ensures Frame(a)[i] != 0 {
      assert Frame(a)[i] == a[0][i];
    }
  }

  /** Equal revisions mean equal resources, absent ones included. */
  lemma RevisionIdentifiesSnapshot(f: map<string, Bytes>, g: map<string, Bytes>, doc: seq<Resource>)
    requires Readable(f, doc) && Readable(g, doc)
    ensures RevisionOf(f, doc) == RevisionOf(g, doc) <==> Snapshot(f, doc) == Snapshot(g, doc)
  {
    if RevisionOf(f, doc) == RevisionOf(g, doc) {
      forall i | 0 <= i < |doc| ensures NoNul(Parts(f, doc)[i]) && NoNul(Parts(g, doc)[i]) {}
      FrameInjective(Parts(f, doc), Parts(g, doc));
      forall i | 0 <= i < |doc| ensures Lookup(f, doc[i].path) == Lookup(g, doc[i].path) {
        assert Parts(f, doc)[i] == Parts(g, doc)[i];
        assert Ascii(doc[i].absent)[0] == '<' as int;
      }
    }
    if Snapshot(f, doc) == Snapshot(g, doc) {
      forall i | 0 <= i < |doc| ensures Parts(f, doc)[i] == Parts(g, doc)[i] {
        assert Snapshot(f, doc)[i] == Snapshot(g, doc)[i];
      }
      assert Parts(f, doc) == Parts(g, doc);
    }
  }
}
