/** `CBuild::RType`, the kind of run the command line asks for. */
module RunType {
  datatype RType = Error | Build | BuildRun | Run | Debug | Clear | LoadDeps | Task | Rebuild
}
