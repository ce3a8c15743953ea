/**
  How pkg/watcher/pv_watcher.go turns a persistent volume into tags and a volume for the
  provider.  A pv that reaches this code has a CSI source and a claim reference.
 */
module Watcher {
  import opened Wrappers
  import opened SplitJoin
  import opened Sizes

  datatype CSISource = CSISource(driver: string, volumeHandle: string, attributes: map<string, string>)

  datatype PersistentVolume = PersistentVolume(
    name: string, csi: Option<CSISource>, claimNamespace: string, claimName: string,
    reclaimPolicy: string, storageClassName: string, released: bool, storage: int64)

  datatype Volume = Volume(
    volumeID: string, provider: string, volumeType: string, crn: string,
    attributes: map<string, string>, tags: seq<string>, capacity: Option<int64>, iops: Option<string>)

  const ClusterIDLabel := "clusterID"
  const LowerClusterIDLabel := "clusterid"

  /** What Go reads for a key, "" if it is not there. */
  function Attribute(csi: CSISource, key: string): (value: string)
    ensures key in csi.attributes ==> value == csi.attributes[key]
    ensures key !in csi.attributes ==> value == ""
  {
    if key in csi.attributes then csi.attributes[key] else ""
  }

  function UserTags(tagstr: string): seq<string> {
    if tagstr == "" then [] else Split(tagstr, ',')
  }

  function DefaultTags(pv: PersistentVolume, csi: CSISource, provisionerName: string): (tags: seq<string>)
    ensures |tags| == 7
  {
    [ClusterIDLabel + ":" + Attribute(csi, ClusterIDLabel),
     "reclaimpolicy:" + pv.reclaimPolicy,
     "storageclass:" + pv.storageClassName,
     "namespace:" + pv.claimNamespace,
     "pvc:" + pv.claimName,
     "pv:" + pv.name,
     "provisioner:" + provisionerName]
  }

  /** The tags of a volume: those of the user, then the default ones. */
  function TagsOf(pv: PersistentVolume, csi: CSISource, provisionerName: string): seq<string> {
    UserTags(TrimSpace(Attribute(csi, "tags"))) + DefaultTags(pv, csi, provisionerName)
  }

  /** One call of `New`. */
  datatype Registration = Registration(provisionerName: string, volumeType: string)

  function After(types: map<string, string>, r: Registration): map<string, string> {
    types[r.provisionerName := r.volumeType]
  }

  /** The type map after a sequence of calls of `New`. */
  function AfterAll(types: map<string, string>, news: seq<Registration>): map<string, string> {
    if news == [] then types else After(AfterAll(types, news[..|news| - 1]), news[|news| - 1])
  }

  /** What Go reads for the driver, "" if it is not there. */
  function TypeOf(types: map<string, string>, driver: string): string {
    if driver in types then types[driver] else ""
  }

  /** The package variable VolumeTypeMap, one for all the watchers. */
  class VolumeTypeMap {
    var types: map<string, string>

    constructor ()
      ensures types == map[]
    {
      types := map[];
    }
  }

  class PVWatcher {
    const provisionerName: string
    const providerType: string
    const registry: VolumeTypeMap

    /** `New` registers the volume type for every watcher of the provisioner. */
    constructor (r: Registration, providerType: string, registry: VolumeTypeMap)
      modifies registry
      ensures provisionerName == r.provisionerName && this.providerType == providerType
      ensures this.registry == registry && registry.types == After(old(registry.types), r)
    {
      this.provisionerName := r.provisionerName;
      this.providerType := providerType;
      this.registry := registry;
      new;
      registry.types := registry.types[r.provisionerName := r.volumeType];
    }

    /** Only a pv of a CSI driver passes, and only when the driver is the provisioner. */
    predicate Filter(pv: Option<PersistentVolume>): (passes: bool)
      ensures pv.None? || pv.value.csi.None? ==> !passes
      ensures forall csi | pv.Some? && pv.value.csi == Some(csi) :: passes <==> csi.driver == provisionerName
    {
      pv.Some? && pv.value.csi.Some? && pv.value.csi.value.driver == provisionerName
    }

    method GetTags(pv: PersistentVolume) returns (crn: string, tags: seq<string>)
      requires pv.csi.Some?
      ensures crn == Attribute(pv.csi.value, "volumeCRN")
      ensures tags == TagsOf(pv, pv.csi.value, provisionerName)
      ensures |tags| >= 7 && tags[|tags| - 7..] ==
        ["clusterID:" + Attribute(pv.csi.value, "clusterID"), "reclaimpolicy:" + pv.reclaimPolicy,
         "storageclass:" + pv.storageClassName, "namespace:" + pv.claimNamespace, "pvc:" + pv.claimName,
         "pv:" + pv.name, "provisioner:" + provisionerName]
      ensures Join(tags[..|tags| - 7], ',') == TrimSpace(Attribute(pv.csi.value, "tags"))
    {
      var csi := pv.csi.value;
      var tagstr := TrimSpace(Attribute(csi, "tags"));
      tags := [];
      if |tagstr| > 0 {
        tags := Split(tagstr, ',');
      }
      tags := tags + [ClusterIDLabel + ":" + Attribute(csi, ClusterIDLabel)];
      tags := tags + ["reclaimpolicy:" + pv.reclaimPolicy];
      tags := tags + ["storageclass:" + pv.storageClassName];
      tags := tags + ["namespace:" + pv.claimNamespace];
      tags := tags + ["pvc:" + pv.claimName];
      tags := tags + ["pv:" + pv.name];
      tags := tags + ["provisioner:" + provisionerName];
      crn := Attribute(csi, "volumeCRN");
      assert tags == UserTags(tagstr) + DefaultTags(pv, csi, provisionerName);
      TagsRoundTrip(pv, csi, provisionerName);
    }

    /**
      A released volume is reported deleted with nothing else set; any other is reported
      created, with its tags, its size in whole GiB and its iops.  For a pv whose size was
      rounded up on creation that is the size asked for, in GiB, rounded up.
     */
    method GetVolume(pv: PersistentVolume) returns (volume: Volume)
      requires pv.csi.Some?
      ensures volume.volumeID == pv.csi.value.volumeHandle && volume.provider == providerType
      ensures volume.volumeType == TypeOf(registry.types, pv.csi.value.driver)
      ensures Filter(Some(pv)) ==> volume.volumeType == TypeOf(registry.types, provisionerName)
      ensures volume.crn == Attribute(pv.csi.value, "volumeCRN")
      ensures volume.attributes ==
        map["clusterid" := Attribute(pv.csi.value, "clusterID"),
            "status" := if pv.released then "deleted" else "created"]
      ensures pv.released ==> volume.tags == [] && volume.capacity == None && volume.iops == None
      ensures !pv.released ==>
        && volume.capacity == Some(BytesToGiB(pv.storage))
        && (var gib := volume.capacity.value as int;
            pv.storage >= 0 ==> gib * 0x4000_0000 <= pv.storage as int < (gib + 1) * 0x4000_0000)
        && volume.iops == Some(Attribute(pv.csi.value, "iops"))
        && volume.tags == TagsOf(pv, pv.csi.value, provisionerName)
        && volume.tags[|volume.tags| - 7..] ==
          ["clusterID:" + Attribute(pv.csi.value, "clusterID"), "reclaimpolicy:" + pv.reclaimPolicy,
           "storageclass:" + pv.storageClassName, "namespace:" + pv.claimNamespace, "pvc:" + pv.claimName,
           "pv:" + pv.name, "provisioner:" + provisionerName]
      ensures !pv.released ==>
        forall asked: int64 | RoundsUp(asked) && pv.storage == RoundUpBytes(asked) ::
          (volume.capacity.value as int - 1) * GiB < asked as int <= volume.capacity.value as int * GiB
    {
      var csi := pv.csi.value;
      var crn, tags := GetTags(pv);
      var volumeType := TypeOf(registry.types, csi.driver);
      volume := Volume(csi.volumeHandle, providerType, volumeType, "", map[], [], None, None);
      volume := volume.(crn := crn);
      var clusterID := Attribute(csi, ClusterIDLabel);
      volume := volume.(attributes := map[LowerClusterIDLabel := clusterID]);
      if pv.released {
        volume := volume.(attributes := volume.attributes["status" := "deleted"]);
      } else {
        volume := volume.(tags := tags);
        TagsRoundTrip(pv, csi, provisionerName);
        var capacityGiB := BytesToGiB(pv.storage);
        BytesToGiBTruncates(pv.storage, capacityGiB as int);
        forall asked: int64 | RoundsUp(asked) && pv.storage == RoundUpBytes(asked)
          ensures (capacityGiB as int - 1) * GiB < asked as int <= capacityGiB as int * GiB
        {
          RoundUpThenConvert(asked, capacityGiB as int);
        }
        volume := volume.(capacity := Some(capacityGiB));
        volume := volume.(iops := Some(Attribute(csi, "iops")));
        volume := volume.(attributes := volume.attributes["status" := "created"]);
      }
    }
  }

  /**
    Nothing of the user's tag string is lost: dropping the seven default tags and joining
    the rest gives the trimmed string back, and there is one user tag more than it has
    commas, or none.  The default tags come last, in this order.
   */
  lemma TagsRoundTrip(pv: PersistentVolume, csi: CSISource, provisionerName: string)
    ensures var tags, tagstr := TagsOf(pv, csi, provisionerName), TrimSpace(Attribute(csi, "tags"));
      && |tags| == 7 + (if tagstr == "" then 0 else Count(tagstr, ',') + 1)
      && Join(tags[..|tags| - 7], ',') == tagstr
      && (forall t | t in tags[..|tags| - 7] :: ',' !in t)
      && tags[|tags| - 7..] ==
        ["clusterID:" + Attribute(csi, "clusterID"), "reclaimpolicy:" + pv.reclaimPolicy,
         "storageclass:" + pv.storageClassName, "namespace:" + pv.claimNamespace, "pvc:" + pv.claimName,
         "pv:" + pv.name, "provisioner:" + provisionerName]
  {
    var tagstr := TrimSpace(Attribute(csi, "tags"));
    var tags, defaults := TagsOf(pv, csi, provisionerName), DefaultTags(pv, csi, provisionerName);
    assert tags[..|tags| - 7] == UserTags(tagstr) && tags[|tags| - 7..] == defaults;
    assert ClusterIDLabel + ":" == "clusterID:";
    JoinSplit(tagstr, ',');
    SplitCounts(tagstr, ',');
  }

  /** The type of a driver is the one of its last registration, or what was there before any. */
  lemma {:induction false} LastRegistrationCounts(types: map<string, string>, news: seq<Registration>, i: nat)
    requires i < |news| && forall j | i < j < |news| :: news[j].provisionerName != news[i].provisionerName
    ensures TypeOf(AfterAll(types, news), news[i].provisionerName) == news[i].volumeType
  {
    if i < |news| - 1 {
      LastRegistrationCounts(types, news[..|news| - 1], i);
    }
  }

  /** A later call of `New` for the watcher's provisioner gave a different type. */
  predicate Displaced(news: seq<Registration>, i: nat)
    requires i < |news|
  {
    exists j | i < j < |news| ::
      news[j].provisionerName == news[i].provisionerName && news[j].volumeType != news[i].volumeType
  }

  lemma {:induction false} OwnTypeUnlessDisplaced(types: map<string, string>, news: seq<Registration>, i: nat)
    requires i < |news| && !Displaced(news, i)
    ensures TypeOf(AfterAll(types, news), news[i].provisionerName) == news[i].volumeType
  {
    if i < |news| - 1 {
      assert forall j | i < j < |news| - 1 :: news[..|news| - 1][j] == news[j];
      OwnTypeUnlessDisplaced(types, news[..|news| - 1], i);
    }
  }

  /** The watcher made by call `i` finds its own type when `n` calls have been made. */
  predicate FindsOwnType(types: map<string, string>, news: seq<Registration>, i: nat, n: nat)
    requires i < n <= |news|
  {
    TypeOf(AfterAll(types, news[..n]), news[i].provisionerName) == news[i].volumeType
  }

  /**
    The watcher made by call `i` finds its own type for the volumes that pass its filter at
    every later moment, if and only if no later call for its provisioner gave another.
   */
  lemma OwnTypeExactly(types: map<string, string>, news: seq<Registration>, i: nat)
    requires i < |news|
    ensures (forall n | i < n <= |news| :: FindsOwnType(types, news, i, n)) <==> !Displaced(news, i)
  {
    if Displaced(news, i) {
      var name := news[i].provisionerName;
      var j :| i < j < |news| && news[j].provisionerName == name && news[j].volumeType != news[i].volumeType;
      LastRegistrationCounts(types, news[..j + 1], j);
      assert !FindsOwnType(types, news, i, j + 1);
    } else {
      forall n | i < n <= |news| ensures FindsOwnType(types, news, i, n) {
        OwnTypeUnlessDisplaced(types, news[..n], i);
      }
    }
  }
}
