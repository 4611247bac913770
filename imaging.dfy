/** HealthRecord.ImagingStudy: series of image instances and the DICOM UIDs
    assigned to them when a study is recorded. */
module Imaging {
  import opened Util
  import opened Concepts

  /** One image: its UID (unset until assigned), a title and its SOP class. */
  datatype Instance = Instance(dicomUid: Option<string>, title: string, sopClass: Code)

  /** A series of images of one body site taken with one modality. */
  datatype Series = Series(
    dicomUid: Option<string>,
    bodySite: Code,
    modality: Code,
    instances: seq<Instance>,
    minNumberInstances: int,
    maxNumberInstances: int)

  /** Series number `seriesNo` with its UID and the UIDs of its instances, numbered
      from 1, as drawn from `uid(series, instance)`. */
  function NumberSeries(s: Series, seriesNo: int, uid: (int, int) -> string): Series {
    s.(dicomUid := Some(uid(seriesNo, 0)),
       instances := seq(|s.instances|, j requires 0 <= j < |s.instances| =>
                          s.instances[j].(dicomUid := Some(uid(seriesNo, j + 1)))))
  }

  /** The study's series after UID assignment: series `i` (counted from 0) is
      series number `i + 1`. */
  function WithDicomUids(series: seq<Series>, uid: (int, int) -> string): seq<Series> {
    seq(|series|, i requires 0 <= i < |series| => NumberSeries(series[i], i + 1, uid))
  }

  /** `assignImagingStudyDicomUids`: walks the series and, within each, the
      instances, numbering both from 1. Series `i` gets `uid(i + 1, 0)`, its
      instance `j` gets `uid(i + 1, j + 1)`, and nothing else about the series
      changes. */
  method AssignDicomUids(series: seq<Series>, uid: (int, int) -> string) returns (r: seq<Series>)
    ensures r == WithDicomUids(series, uid)
    ensures |r| == |series|
    ensures forall i :: 0 <= i < |r| ==>
              && r[i].dicomUid == Some(uid(i + 1, 0))
              && r[i] == series[i].(dicomUid := r[i].dicomUid, instances := r[i].instances)
              && |r[i].instances| == |series[i].instances|
    ensures forall i, j :: 0 <= i < |r| && 0 <= j < |r[i].instances| ==>
              r[i].instances[j] == series[i].instances[j].(dicomUid := Some(uid(i + 1, j + 1)))
  {
    r := series;
    var seriesNo := 1;
    while seriesNo <= |r|
      invariant 1 <= seriesNo <= |r| + 1 && |r| == |series|
      invariant forall i :: 0 <= i < seriesNo - 1 ==> r[i] == NumberSeries(series[i], i + 1, uid)
      invariant forall i :: seriesNo - 1 <= i < |r| ==> r[i] == series[i]
    {
      var s := r[seriesNo - 1];
      var instances := s.instances;
      var instanceNo := 1;
      while instanceNo <= |instances|
        invariant 1 <= instanceNo <= |instances| + 1 && |instances| == |s.instances|
        invariant forall j :: 0 <= j < instanceNo - 1 ==>
                    instances[j] == s.instances[j].(dicomUid := Some(uid(seriesNo, j + 1)))
        invariant forall j :: instanceNo - 1 <= j < |instances| ==> instances[j] == s.instances[j]
      {
        instances := instances[instanceNo - 1 := instances[instanceNo - 1].(dicomUid := Some(uid(seriesNo, instanceNo)))];
        instanceNo := instanceNo + 1;
      }
      r := r[seriesNo - 1 := s.(dicomUid := Some(uid(seriesNo, 0)), instances := instances)];
      seriesNo := seriesNo + 1;
    }
  }
}
