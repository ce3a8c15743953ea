/** Node metadata from labels and the provider ID: pkg/metadata/metadata.go. */
module Metadata {
  import opened Wrappers
  import opened SplitJoin

  function FetchInstanceAndAccountID(providerID: string): (string, string) {
    var s := Split(providerID, '/');
    if |s| != 7 then ("", "") else (s[6], s[2])
  }

  /** Seven segments without slashes, joined, give back the last and the third. */
  lemma FetchFromSegments(segments: seq<string>)
    requires |segments| == 7 && forall p | p in segments :: '/' !in p
    ensures FetchInstanceAndAccountID(Join(segments, '/')) == (segments[6], segments[2])
  {
    SplitJoined(segments, '/');
  }

  /** With any other number of slashes there is nothing to fetch; with six there are segments. */
  lemma FetchNeedsSixSlashes(providerID: string)
    ensures Count(providerID, '/') != 6 ==> FetchInstanceAndAccountID(providerID) == ("", "")
    ensures Count(providerID, '/') == 6 ==>
      exists segments | |segments| == 7 ::
        Join(segments, '/') == providerID && FetchInstanceAndAccountID(providerID) == (segments[6], segments[2])
  {
    SplitCounts(providerID, '/');
    JoinSplit(providerID, '/');
  }

  /** The node labels that are read: zone, region, vpc-instance-id, machine-type; "" if absent. */
  datatype Labels = Labels(zone: string, region: string, instanceID: string, machineType: string)

  datatype NodeMetadata = NodeMetadata(zone: string, region: string, workerID: string, accountID: string)

  /** The metadata of a node that was read from the cluster; None is an error. */
  function NewNodeMetadata(labels: Labels, providerID: string): Option<NodeMetadata> {
    if labels.region == "" || labels.zone == "" then None
    else if labels.machineType == "upi" then
      Some(NodeMetadata(labels.zone, labels.region, labels.instanceID, ""))
    else
      var (workerID, accountID) := FetchInstanceAndAccountID(providerID);
      if workerID == "" then None
      else Some(NodeMetadata(labels.zone, labels.region, workerID, accountID))
  }

  /** A join ends in the separator exactly when its last piece is empty. */
  lemma {:induction false} EndOfJoin(parts: seq<string>, sep: char)
    requires |parts| > 1 && forall p | p in parts :: sep !in p
    ensures Join(parts, sep) != ""
    ensures Join(parts, sep)[|Join(parts, sep)| - 1] == sep <==> parts[|parts| - 1] == ""
    decreases |parts|
  {
    var joined := Join(parts, sep);
    var tail := Join(parts[1..], sep);
    assert joined == parts[0] + [sep] + tail;
    if |parts| == 2 {
      assert tail == parts[1] && parts[1] in parts;
      if tail != "" {
        assert joined[|joined| - 1] == tail[|tail| - 1];
      }
    } else {
      EndOfJoin(parts[1..], sep);
      assert joined[|joined| - 1] == tail[|tail| - 1];
    }
  }

  /** An instance is found exactly when there are six slashes and something after the last. */
  lemma InstanceExactly(providerID: string)
    ensures FetchInstanceAndAccountID(providerID).0 != "" <==>
      Count(providerID, '/') == 6 && providerID != "" && providerID[|providerID| - 1] != '/'
  {
    var s := Split(providerID, '/');
    SplitCounts(providerID, '/');
    JoinSplit(providerID, '/');
    if |s| == 7 {
      EndOfJoin(s, '/');
    }
  }

  /**
    A node has metadata exactly when its zone and region are known and, unless it is a
    satellite host, its provider ID ends in an instance.
   */
  lemma MetadataExactly(labels: Labels, providerID: string)
    ensures NewNodeMetadata(labels, providerID).Some? <==>
      && labels.region != "" && labels.zone != ""
      && (labels.machineType == "upi" ||
          (Count(providerID, '/') == 6 && providerID != "" && providerID[|providerID| - 1] != '/'))
  {
    InstanceExactly(providerID);
  }

  /**
    What the metadata says, for any provider ID: the labels' zone and region, and for a
    satellite host the labelled instance and no account; for any other, the segments behind
    the sixth and the second slash.
   */
  lemma MetadataContents(labels: Labels, providerID: string)
    requires NewNodeMetadata(labels, providerID).Some?
    ensures var m := NewNodeMetadata(labels, providerID).value;
      && m.zone == labels.zone && m.region == labels.region
      && if labels.machineType == "upi" then m.workerID == labels.instanceID && m.accountID == ""
         else exists segments | |segments| == 7 && (forall p | p in segments :: '/' !in p) ::
           Join(segments, '/') == providerID && m.workerID == segments[6] != "" && m.accountID == segments[2]
  {
    JoinSplit(providerID, '/');
    SplitCounts(providerID, '/');
  }

  /** The same from the segments of the provider ID. */
  lemma MetadataFromSegments(labels: Labels, segments: seq<string>)
    requires |segments| == 7 && forall p | p in segments :: '/' !in p
    requires labels.region != "" && labels.zone != "" && segments[6] != "" && labels.machineType != "upi"
    ensures NewNodeMetadata(labels, Join(segments, '/')) ==
      Some(NodeMetadata(labels.zone, labels.region, segments[6], segments[2]))
  {
    FetchFromSegments(segments);
  }
}
