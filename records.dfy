/**
 * The parts of a series that the resolvers look at. Each record stands for
 * its `output()` dictionary, which is what the resolvers compare; how that
 * dictionary is produced (pyrecon.tools.classes) is not part of this model.
 */
module Records {
  import opened Outcomes

  /** A contour: its tag ('Contour' or 'ZContour') and everything else about it. */
  datatype Contour = Contour(tag: string, attributes: map<string, string>)

  /** An image record, compared only as a whole. */
  datatype Image = Image(output: map<string, string>)

  datatype Section = Section(index: nat, output: map<string, string>, images: seq<Image>, contours: seq<Contour>)

  datatype Series = Series(output: map<string, string>, contours: seq<Contour>, sections: seq<Section>)

  /** `[section.output() for section in series.sections]` */
  function SectionOutputs(sections: seq<Section>): (r: seq<map<string, string>>)
    ensures |r| == |sections|
    ensures forall i :: 0 <= i < |sections| ==> r[i] == sections[i].output
  {
    seq(|sections|, i requires 0 <= i < |sections| => sections[i].output)
  }

  /** The `index` of each section, used for the row labels. */
  function SectionIndices(sections: seq<Section>): (r: seq<nat>)
    ensures |r| == |sections|
    ensures forall i :: 0 <= i < |sections| ==> r[i] == sections[i].index
  {
    seq(|sections|, i requires 0 <= i < |sections| => sections[i].index)
  }

  /** `[sec.imgs[0] for sec in series.sections]`, which raises when a section has no image. */
  function FirstImages(sections: seq<Section>): (r: Option<seq<Image>>)
    ensures r.Some? <==> forall i :: 0 <= i < |sections| ==> |sections[i].images| > 0
    ensures r.Some? ==> |r.value| == |sections|
    ensures r.Some? ==> forall i :: 0 <= i < |sections| ==> r.value[i] == sections[i].images[0]
    decreases |sections|
  {
    if sections == [] then Some([])
    else if |sections[0].images| == 0 then None
    else
      match FirstImages(sections[1..])
      case None => None
      case Some(rest) => Some([sections[0].images[0]] + rest)
  }
}
