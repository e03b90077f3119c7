/** The configuration tree read from the YAML file. */
module Config {

  /** One configured directory. `onlySelf` marks a directory that is itself a
      project; otherwise its entries are listed, minus the names in `exclude`
      and minus the declared `subDirectories`, which are walked with their own
      settings. Fields the file omits default to `false` and empty. */
  datatype Directory = Directory(
    path: string,
    onlySelf: bool,
    exclude: seq<string>,
    subDirectories: seq<Directory>)

  /** The whole configuration file: the top-level directories, in order. */
  datatype FindprojectConfig = FindprojectConfig(directories: seq<Directory>)
}
