/**
  How the command-line entry point (src/main.rs) configures the saver:
  the CLI's output name, the video URL as header, and the fixed folder.
 */
module Pipeline {
  import opened Outcomes
  import opened Saver

  /** The folder every guide is saved under. */
  const OutputFolder: string := "gpts/"

  /** The save options of the entry point. */
  function MainSaverConfig(output: Option<string>, videoUrl: string): SaverConfig
  {
    SaverConfig(output, Some(videoUrl), Some(OutputFolder))
  }

  /**
    Under the entry point's options a relative file name lands directly
    in "gpts/", and the written text opens with the video's URL line.
   */
  lemma MainSaveTarget(output: Option<string>, videoUrl: string, content: string, existing: set<string>, id: string)
    ensures var config := MainSaverConfig(output, videoUrl);
      var filename := Filename(output, content, existing, id);
      (filename == [] || filename[0] != '/') ==> ResolvePath(config.folder, filename) == OutputFolder + filename
    ensures var config := MainSaverConfig(output, videoUrl);
      Header(videoUrl) <= Compose(content, config.url)
      && Compose(content, config.url)[|Header(videoUrl)|..] == content
  {
  }
}
