/** Choice of the properties file from the loader's command line. */
module LoaderArgs {
  import opened Refs

  /**
   * The properties file the loader reads: the only argument when exactly
   * one non-null argument is given, the default file in every other case
   * (no argument array, an empty or longer one, or a null argument).
   */
  function PropertiesFile(args: Nullable<seq<Nullable<string>>>, defaultFile: string): (file: string)
    ensures file == defaultFile || args == Ref([Ref(file)])
    ensures args.Ref? && |args.value| == 1 && args.value[0].Ref? ==> file == args.value[0].value
  {
    if args.Null? || |args.value| != 1 || args.value[0].Null? then defaultFile
    else
      assert args.value == [args.value[0]];
      args.value[0].value
  }
}
