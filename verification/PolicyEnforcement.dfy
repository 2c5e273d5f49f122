/** From the lists of a policy to the mark of a socket: generator, programs and maps together. */
module PolicyEnforcement {
  import opened Bytes
  import opened BpfMachine
  import opened BpfAssembler
  import opened BpfPrograms
  import opened SplitModel
  import opened LpmIndex

  /**
   With maps that agree with the lists, running the generated program on any
   socket leaves the mark the lists of the calling user ask for.
   */
  lemma PolicyEnforced(env: Env, fds: Fds, ipv6: bool, k: Kernel, configs: ConfigMap, policies: PolicyMap,
                       m: Machine)
    returns (m': Machine)
    requires AtEntry(m) && Loaded(env, fds, ipv6, k) && Agrees(k, configs, policies)
    ensures Assemblable(DestinationSource(fds, ipv6))
    ensures var code := Assemble(DestinationSource(fds, ipv6));
            Run(env, code, 0, m, |code|) == Exited(Num(1), m')
    ensures var address := Bits(Destination(m.ctx, ipv6));
            var marks := ListMarks(configs, policies, Uid(env), address, TaskKey(env) in k.pids);
            && m'.mark == MarkAfter(env, m.mark, marks)
            && (HelpersWork(env) ==> m'.mark == FinalMark(m.mark, marks))
  {
    hide Run, Assemblable, Assemble, Marks, ListMarks, Loaded, Agrees, Maps, Uid, TaskKey;
    MapsRefineLists(env, fds, m.ctx, ipv6, k, configs, policies);
    m' := DestinationProgramDecides(env, fds, ipv6, m);
  }
}
