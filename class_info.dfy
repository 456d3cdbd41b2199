/** The ClassInfo objects the components hand out. */
module ClassInfos {

  /** Which implementation made the object: a manifest row (CsvClassInfo) or a class loaded
      from an archive (JarClassInfo), the latter with the names of the interfaces the class
      declares directly (Class.getInterfaces). */
  datatype Origin = CsvRow | JarClass(interfaces: seq<string>)

  /** A ClassInfo object. No implementation overrides equals, so Collection.contains on
      ClassInfo compares objects, which is Dafny's reference equality on this class. */
  class ClassInfo {
    const fullName: string
    const simpleName: string
    const origin: Origin

    constructor (fullName: string, simpleName: string, origin: Origin)
      ensures this.fullName == fullName && this.simpleName == simpleName && this.origin == origin
    {
      this.fullName := fullName;
      this.simpleName := simpleName;
      this.origin := origin;
    }
  }

  /** The key of comparing(ClassInfo::simpleName). */
  function SimpleName(c: ClassInfo): string {
    c.simpleName
  }

  /** What a ClassInfo object reports about itself, without its identity. */
  datatype ClassValue = ClassValue(fullName: string, simpleName: string, origin: Origin)

  function ValueOf(c: ClassInfo): ClassValue {
    ClassValue(c.fullName, c.simpleName, c.origin)
  }
}
